/** The scheduler's mutations over the run and item tables, branch by branch: capacity counted from
    truncated scans, candidates from two bounded pools, expired leases settled one at a time. */
module RunnerRuns {
  import opened Base
  import opened RunnerTables
  import opened RunnerModel

  function Get(counts: map<Id, nat>, p: Id): nat { if p in counts then counts[p] else 0 }

  /** The eligible rows among the given ones. */
  function EligibleRows(runs: seq<QueuedRun>, rows: seq<nat>, q: ClaimRequest): (r: seq<nat>)
    requires RowsOf(runs, rows)
    ensures RowsOf(runs, r)
  {
    if rows == [] then []
    else (if Eligible(runs[rows[0]], q) then [rows[0]] else []) + EligibleRows(runs, rows[1..], q)
  }

  /** The first candidate whose project has room, or -1. */
  function AvailableCandidate(runs: seq<QueuedRun>, candidates: seq<nat>, counts: map<Id, nat>, projectLimit: int): int
    requires RowsOf(runs, candidates)
  {
    if candidates == [] then -1
    else if Get(counts, runs[candidates[0]].project) < projectLimit then candidates[0]
    else AvailableCandidate(runs, candidates[1..], counts, projectLimit)
  }

  ghost predicate CountsSlots(runs: seq<QueuedRun>, now: Time, counts: map<Id, nat>) {
    forall p :: Get(counts, p) == Slots(runs, now, Some(p))
  }

  lemma {:induction false} CandidateIsFirstClaimable(runs: seq<QueuedRun>, rows: seq<nat>, counts: map<Id, nat>,
          q: ClaimRequest)
    requires RowsOf(runs, rows) && CountsSlots(runs, q.now, counts)
    ensures AvailableCandidate(runs, EligibleRows(runs, rows, q), counts, q.projectLimit) ==
              FirstClaimable(runs, rows, q)
  {
    if rows != [] {
      CandidateIsFirstClaimable(runs, rows[1..], counts, q);
      var rest := EligibleRows(runs, rows[1..], q);
      if Eligible(runs[rows[0]], q) { assert ([rows[0]] + rest)[1..] == rest; } else { assert [] + rest == rest; }
    }
  }

  lemma {:induction false} CountOfEqualMatches(a: seq<QueuedRun>, b: seq<QueuedRun>, q: Query)
    requires |a| == |b| && forall i :: 0 <= i < |a| ==> Matches(a[i], q) == Matches(b[i], q)
    ensures CountMatching(a, q, None) == CountMatching(b, q, None)
  {
    if a != [] { CountOfEqualMatches(a[..|a| - 1], b[..|b| - 1], q); }
  }

  /** Where a status comes in the order in which expired leases are settled. */
  function Turn(s: Status): nat {
    match s case Queued => 0 case Starting => 1 case Running => 2 case Waiting => 3 case _ => 4
  }

  ghost function ExpiredBefore(runs: seq<QueuedRun>, now: Time, turn: nat): set<int> {
    set i | 0 <= i < |runs| && IsExpired(runs[i], now) && Turn(runs[i].status) < turn
  }

  lemma AbandonNothing(t: State)
    ensures AbandonWhere(t, {}) == t
  {
    var t' := AbandonWhere(t, {});
    assert t'.runs == t.runs && t'.items == t.items;
  }

  /** Abandoning one more run. */
  lemma AbandonOneMore(t: State, done: set<int>, i: nat)
    requires i < |t.runs| && i !in done
    ensures AbandonWhere(AbandonWhere(t, done), {i}) == AbandonWhere(t, done + {i})
  {
    hide AbandonWhere, Newest, Abandon;
    var t1 := AbandonWhere(t, done);
    var t2, t3 := AbandonWhere(t1, {i}), AbandonWhere(t, done + {i});
    forall k | 0 <= k < |t.runs| ensures t1.runs[k].item == t.runs[k].item { AbandonKeepsKey(t.runs[k]); }
    assert t2.runs == t3.runs;
    forall id | id in t.items ensures t2.items[id] == t3.items[id] { NewestReads(t.runs, t1.runs, id); }
    assert t2.items == t3.items;
  }

  lemma AbandonKeepsKey(r: QueuedRun)
    ensures Abandon(r).item == r.item
  {
  }

  /** An expired run that is still open is the newest of its item, and the item is held by it. */
  lemma ExpiredRunHoldsItem(t: State, i: nat, now: Time)
    requires Inv(t) && i < |t.runs| && IsExpired(t.runs[i], now)
    ensures var r := t.runs[i];
            && Newest(t.runs, r.item) == i && r.item in t.items && r.owner.Some?
            && t.items[r.item].status == Active && t.items[r.item].holder == r.owner
  {
    hide Newest;
    OpenIsNewest(t, i);
    assert MirrorsNewest(t, t.runs[i].item) && RunOk(t.runs[i]);
  }

  lemma OneCandidate(runs: seq<QueuedRun>, due: seq<nat>, queued: seq<nat>, q: ClaimRequest, counts: map<Id, nat>)
    requires q.run.Some? && CountsSlots(runs, q.now, counts) && RowsOf(runs, due) && RowsOf(runs, queued)
    requires due + queued == if q.run.value < |runs| && Eligible(runs[q.run.value], q) then [q.run.value] else []
    ensures var run := AvailableCandidate(runs, due, counts, q.projectLimit);
            var r := if run < 0 then AvailableCandidate(runs, queued, counts, q.projectLimit) else run;
            r == if Claimable(runs, q.run.value, q) then q.run.value else -1
  {
    hide Eligible, Slots;
    if q.run.value < |runs| && Eligible(runs[q.run.value], q) {
      assert |due| + |queued| == 1 && (due + queued)[0] == q.run.value;
    } else {
      assert |due| + |queued| == 0;
    }
  }

  /** An item is held by, or blocked for, its open run. */
  lemma LiveRunHoldsItem(t: State, i: nat)
    requires Inv(t) && i < |t.runs| && !Closed(t.runs[i])
    ensures var r := t.runs[i];
            && r.item in t.items && t.items[r.item].holder == r.owner
            && t.items[r.item].status == if r.owner.Some? then Active else ItemBlocked
  {
    hide Newest;
    OpenIsNewest(t, i);
    assert MirrorsNewest(t, t.runs[i].item) && RunOk(t.runs[i]);
  }

  lemma NextRunLease(r: QueuedRun, command: Command, reference: Option<Id>, actor: Id, leaseGeneration: int,
          leaseSeconds: int, now: Time)
    requires RunOk(r) && !Closed(r)
    ensures var n := NextRun(r, command, reference, actor, leaseGeneration, leaseSeconds, now);
            n.Some? ==>
              (n.value.owner.Some? <==> Leased(n.value.status)) && n.value.status != Abandoned && n.value.item == r.item
  {
  }

  ghost predicate ExpiredAt(runs: seq<QueuedRun>, now: Time, turn: nat, i: int) {
    0 <= i < |runs| && IsExpired(runs[i], now) && Turn(runs[i].status) == turn
  }

  lemma ExpiredMatches(t: State, done: set<int>, s: nat, now: Time, i: nat)
    requires Inv(t) && s < |EXPIRING_STATUSES| && i < |t.runs|
    requires done == ExpiredBefore(t.runs, now, s)
    ensures var q := Expired(EXPIRING_STATUSES[s], now);
            Matches(AbandonWhere(t, done).runs[i], q) == Matches(t.runs[i], q) == ExpiredAt(t.runs, now, s, i)
  {
    assert RunOk(t.runs[i]);
    assert Turn(EXPIRING_STATUSES[s]) == s;
  }

  /** Settling earlier statuses does not change which leases of a later status have run out. */
  lemma ExpiredScan(t: State, done: set<int>, s: nat, now: Time)
    requires Inv(t) && s < |EXPIRING_STATUSES| && done == ExpiredBefore(t.runs, now, s)
    ensures var rows := Scan(AbandonWhere(t, done).runs, Expired(EXPIRING_STATUSES[s], now));
            && |rows| == |Scan(t.runs, Expired(EXPIRING_STATUSES[s], now))|
            && (forall a, b :: 0 <= a < b < |rows| ==> rows[a] != rows[b])
            && (forall a :: 0 <= a < |rows| ==> ExpiredAt(t.runs, now, s, rows[a]))
            && (forall i :: ExpiredAt(t.runs, now, s, i) ==> i in rows)
  {
    hide Inv, AbandonWhere, ExpiredBefore, Matches, ExpiredAt, SortKey;
    var q := Expired(EXPIRING_STATUSES[s], now);
    var runs := AbandonWhere(t, done).runs;
    var rows := Scan(runs, q);
    forall i: nat | i < |t.runs| ensures Matches(runs[i], q) == Matches(t.runs[i], q) == ExpiredAt(t.runs, now, s, i) {
      ExpiredMatches(t, done, s, now, i);
    }
    CountOfEqualMatches(runs, t.runs, q);
    ScanCounts(runs, q, None);
    ScanCounts(t.runs, q, None);
    assert forall a, b :: 0 <= a < b < |rows| ==> Precedes(runs, q, rows[a], rows[b]);
    forall i | ExpiredAt(t.runs, now, s, i) ensures i in rows { ExpiredAtRow(t.runs, now, s, i); }
  }

  lemma ExpiredAtRow(runs: seq<QueuedRun>, now: Time, s: nat, i: int)
    requires ExpiredAt(runs, now, s, i)
    ensures 0 <= i < |runs|
  {
  }

  lemma ExpiredBeforeNext(runs: seq<QueuedRun>, now: Time, s: nat, rows: seq<nat>)
    requires forall a :: 0 <= a < |rows| ==> ExpiredAt(runs, now, s, rows[a])
    requires forall i :: ExpiredAt(runs, now, s, i) ==> i in rows
    ensures ExpiredBefore(runs, now, s) + FirstRows(rows, |rows|) == ExpiredBefore(runs, now, s + 1)
  {
    var here := FirstRows(rows, |rows|);
    forall i ensures i in ExpiredBefore(runs, now, s) + here <==> i in ExpiredBefore(runs, now, s + 1) {
      if ExpiredAt(runs, now, s, i) { assert i in rows; }
    }
  }

  lemma NoneBefore(runs: seq<QueuedRun>, now: Time)
    ensures ExpiredBefore(runs, now, 0) == {}
  {
  }

  lemma NotBefore(runs: seq<QueuedRun>, now: Time, s: nat, i: nat)
    requires ExpiredAt(runs, now, s, i)
    ensures i !in ExpiredBefore(runs, now, s)
  {
  }

  lemma AllTurnsTaken(runs: seq<QueuedRun>, now: Time)
    ensures ExpiredBefore(runs, now, |EXPIRING_STATUSES|) == ExpiredRuns(runs, now)
  {
  }

  ghost function FirstRows(rows: seq<nat>, n: nat): set<int>
    requires n <= |rows|
  {
    set a | 0 <= a < n :: rows[a] as int
  }

  class RunnerRuns {
    var runs: seq<QueuedRun>
    var items: map<Id, Item>
    ghost var clock: Time

    ghost function Contents(): State
      reads this
    {
      State(runs, items, clock)
    }

    ghost predicate Valid()
      reads this
    {
      Inv(Contents())
    }

    constructor (items: map<Id, Item>)
      ensures Valid() && Contents() == State([], items, 0)
    {
      this.runs, this.items, clock := [], items, 0;
    }

    method IncrementAll(counts: map<Id, nat>, rows: seq<nat>) returns (counted: map<Id, nat>)
      requires RowsOf(runs, rows)
      ensures forall p :: Get(counted, p) == Get(counts, p) + Tally(runs, rows, Some(p))
    {
      counted := counts;
      for a := 0 to |rows|
        invariant forall p :: Get(counted, p) == Get(counts, p) + Tally(runs, rows[..a], Some(p))
      {
        var p := runs[rows[a]].project;
        counted := counted[p := Get(counted, p) + 1];
        assert rows[..a + 1][..a] == rows[..a];
      }
      assert rows[..|rows|] == rows;
    }

    /** Reads no more rows than the limit, and still knows whether a slot is free; when one is, the
        slots of every project are counted exactly. */
    method ReadWorkspaceCapacity(now: Time, limit: int) returns (available: bool, counts: map<Id, nat>)
      requires 1 <= limit
      ensures available <==> Slots(runs, now, None) < limit
      ensures available ==> CountsSlots(runs, now, counts)
    {
      hide Scan, CountMatching, Slots, Tally;
      var count := 0;
      counts := map[];
      SlotsAreTheStatusesTogether(runs, now, None);
      for s := 0 to |CAPACITY_STATUSES|
        invariant count == SlotsIn(runs, now, s, None) < limit
        invariant forall p :: Get(counts, p) == SlotsIn(runs, now, s, Some(p))
      {
        var leased := Scan(runs, LeasedAfter(CAPACITY_STATUSES[s], now));
        var unleased := Scan(runs, Unleased(CAPACITY_STATUSES[s]));
        forall p
          ensures Tally(runs, leased, Some(p)) ==
                  CountMatching(runs, LeasedAfter(CAPACITY_STATUSES[s], now), Some(p))
          ensures Tally(runs, unleased, Some(p)) == CountMatching(runs, Unleased(CAPACITY_STATUSES[s]), Some(p))
        {
          ScanCounts(runs, LeasedAfter(CAPACITY_STATUSES[s], now), Some(p));
          ScanCounts(runs, Unleased(CAPACITY_STATUSES[s]), Some(p));
        }
        ScanCounts(runs, LeasedAfter(CAPACITY_STATUSES[s], now), None);
        ScanCounts(runs, Unleased(CAPACITY_STATUSES[s]), None);
        SlotsInGrow(runs, now, s + 1, None);

        leased := Take(leased, limit - count);
        counts := IncrementAll(counts, leased);
        count := count + |leased|;
        if count >= limit {
          return false, counts;
        }
        unleased := Take(unleased, limit - count);
        counts := IncrementAll(counts, unleased);
        count := count + |unleased|;
        if count >= limit {
          return false, counts;
        }
      }
      forall p ensures Get(counts, p) == Slots(runs, now, Some(p)) { SlotsAreTheStatusesTogether(runs, now, Some(p)); }
      return true, counts;
    }

    method ReconcileRunIfExpired(i: nat, now: Time)
      requires Valid() && i < |runs|
      modifies this`runs, this`items
      ensures Contents() == if IsExpired(old(runs)[i], now) then AbandonWhere(old(Contents()), {i}) else old(Contents())
      ensures Valid()
    {
      hide Inv, Newest, AbandonWhere;
      var run := runs[i];
      if !Leased(run.status) || run.expires.None? || run.expires.value > now {
        return;
      }
      ExpiredRunHoldsItem(Contents(), i, now);
      AbandonKeepsInv(Contents(), {i});
      var holder := if run.owner.Some? then run.owner.value else run.actor;
      runs := runs[i := run.(status := Abandoned, generation := run.generation + 1, owner := None, expires := None,
        nextRetryAt := None)];
      if run.item in items && items[run.item].status == Active && items[run.item].holder == Some(holder) {
        items := items[run.item := items[run.item].(status := Ready, holder := None, expires := None)];
      }
      assert runs == AbandonWhere(old(Contents()), {i}).runs;
      assert items == AbandonWhere(old(Contents()), {i}).items;
    }

    /** Settle the expired leases of the given rows, one at a time. */
    method ReconcileRows(rows: seq<nat>, now: Time, ghost t: State, ghost done: set<int>)
      requires Valid() && Contents() == AbandonWhere(t, done)
      requires forall a :: 0 <= a < |rows| ==> rows[a] < |t.runs| && IsExpired(t.runs[rows[a]], now) && rows[a] !in done
      requires forall a, b :: 0 <= a < b < |rows| ==> rows[a] != rows[b]
      modifies this`runs, this`items
      ensures Valid() && Contents() == AbandonWhere(t, done + FirstRows(rows, |rows|))
    {
      hide Inv, AbandonWhere, IsExpired;
      assert FirstRows(rows, 0) == {} && done + {} == done;
      for a := 0 to |rows|
        invariant Valid() && Contents() == AbandonWhere(t, done + FirstRows(rows, a))
      {
        ghost var soFar := done + FirstRows(rows, a);
        assert rows[a] !in soFar;
        ReconcileRunIfExpired(rows[a], now);
        AbandonOneMore(t, soFar, rows[a]);
        assert soFar + {rows[a] as int} == done + FirstRows(rows, a + 1);
      }
    }

    /** Settle the expired leases of one status, unless there are too many. */
    method ReconcileStatus(s: nat, now: Time, ghost t: State) returns (complete: bool)
      requires s < |EXPIRING_STATUSES| && Inv(t)
      requires Valid() && Contents() == AbandonWhere(t, ExpiredBefore(t.runs, now, s))
      modifies this`runs, this`items
      ensures Valid()
      ensures complete <==> |Scan(t.runs, Expired(EXPIRING_STATUSES[s], now))| <= RECONCILE_LIMIT
      ensures complete ==> Contents() == AbandonWhere(t, ExpiredBefore(t.runs, now, s + 1))
    {
      hide Inv, AbandonWhere, Scan, Newest, ExpiredBefore;
      ghost var done := ExpiredBefore(t.runs, now, s);
      ExpiredScan(t, done, s, now);
      var rows := Take(Scan(runs, Expired(EXPIRING_STATUSES[s], now)), RECONCILE_LIMIT + 1);
      if |rows| > RECONCILE_LIMIT {
        return false;
      }
      forall a | 0 <= a < |rows| ensures rows[a] !in done { NotBefore(t.runs, now, s, rows[a]); }
      ReconcileRows(rows, now, t, done);
      ExpiredBeforeNext(t.runs, now, s, rows);
      return true;
    }

    /** Settle the expired leases status by status; give up, changing nothing, when one status has
        too many of them. */
    method ReconcileExpiredRuns(now: Time) returns (complete: bool)
      requires Valid()
      modifies this`runs, this`items
      ensures Valid()
      ensures complete <==> !TooManyExpired(old(runs), now)
      ensures Contents() == if complete then AbandonWhere(old(Contents()), ExpiredRuns(old(runs), now))
                else old(Contents())
    {
      hide Inv, AbandonWhere, Scan, ExpiredBefore;
      var runsBefore, itemsBefore := runs, items;
      ghost var t := Contents();
      NoneBefore(t.runs, now);
      AbandonNothing(t);
      for s := 0 to |EXPIRING_STATUSES|
        invariant Valid() && Contents() == AbandonWhere(t, ExpiredBefore(t.runs, now, s))
        invariant forall k :: 0 <= k < s ==> |Scan(t.runs, Expired(EXPIRING_STATUSES[k], now))| <= RECONCILE_LIMIT
      {
        var settled := ReconcileStatus(s, now, t);
        if !settled {
          runs, items := runsBefore, itemsBefore;
          return false;
        }
      }
      AllTurnsTaken(t.runs, now);
      return true;
    }

    method ReadClaimCandidates(q: ClaimRequest)
      returns (due: seq<nat>, dueTruncated: bool, queued: seq<nat>, queuedTruncated: bool)
      ensures RowsOf(runs, due) && RowsOf(runs, queued)
      ensures q.run.Some? ==> !dueTruncated && !queuedTruncated
      ensures q.run.Some? ==>
                due + queued == if q.run.value < |runs| && Eligible(runs[q.run.value], q) then [q.run.value] else []
      ensures q.run.None? ==>
                && due == EligibleRows(runs, Take(Scan(runs, Due(q.project, q.now)), CANDIDATE_SCAN_LIMIT), q)
                && (dueTruncated <==> |Scan(runs, Due(q.project, q.now))| > CANDIDATE_SCAN_LIMIT)
                && queued == EligibleRows(runs, Take(Scan(runs, Backlog(q.project)), CANDIDATE_SCAN_LIMIT), q)
                && (queuedTruncated <==> |Scan(runs, Backlog(q.project))| > CANDIDATE_SCAN_LIMIT)
    {
      hide Scan, EligibleRows, Eligible;
      if q.run.Some? {
        if q.run.value >= |runs| || !Eligible(runs[q.run.value], q) {
          return [], false, [], false;
        }
        if runs[q.run.value].status == Failed {
          return [q.run.value], false, [], false;
        }
        return [], false, [q.run.value], false;
      }
      var dueRows := Take(Scan(runs, Due(q.project, q.now)), CANDIDATE_SCAN_LIMIT + 1);
      var queuedRows := Take(Scan(runs, Backlog(q.project)), CANDIDATE_SCAN_LIMIT + 1);
      assert Take(dueRows, CANDIDATE_SCAN_LIMIT) == Take(Scan(runs, Due(q.project, q.now)), CANDIDATE_SCAN_LIMIT);
      assert Take(queuedRows, CANDIDATE_SCAN_LIMIT) == Take(Scan(runs, Backlog(q.project)), CANDIDATE_SCAN_LIMIT);
      due := EligibleRows(runs, Take(dueRows, CANDIDATE_SCAN_LIMIT), q);
      queued := EligibleRows(runs, Take(queuedRows, CANDIDATE_SCAN_LIMIT), q);
      return due, |dueRows| > CANDIDATE_SCAN_LIMIT, queued, |queuedRows| > CANDIDATE_SCAN_LIMIT;
    }

    /** The run to claim: due retries first, then queued runs. */
    method ChooseRun(q: ClaimRequest, counts: map<Id, nat>) returns (choice: Choice)
      requires CountsSlots(runs, q.now, counts)
      ensures choice == Choose(runs, q)
    {
      hide Scan, Slots, Eligible, FirstClaimable;
      var due, dueTruncated, queued, queuedTruncated := ReadClaimCandidates(q);
      if q.run.None? {
        CandidateIsFirstClaimable(runs, Take(Scan(runs, Due(q.project, q.now)), CANDIDATE_SCAN_LIMIT), counts, q);
        CandidateIsFirstClaimable(runs, Take(Scan(runs, Backlog(q.project)), CANDIDATE_SCAN_LIMIT), counts, q);
      } else {
        OneCandidate(runs, due, queued, q, counts);
      }
      var run := AvailableCandidate(runs, due, counts, q.projectLimit);
      if run < 0 && dueTruncated {
        return Truncated;
      }
      if run < 0 {
        run := AvailableCandidate(runs, queued, counts, q.projectLimit);
      }
      if run < 0 && queuedTruncated {
        return Truncated;
      }
      if run < 0 {
        return Nobody;
      }
      return Chosen(run);
    }

    method Claim(q: ClaimRequest) returns (outcome: ClaimOutcome)
      requires Valid() && Admissible(Contents(), OnClaim(q))
      modifies this
      ensures Valid()
      ensures (Contents(), outcome) == RunnerModel.Claim(old(Contents()), q)
    {
      hide Inv, AbandonWhere, Slots, Choose, TooManyExpired, ExpiredRuns, Eligible;
      ClaimKeepsInv(Contents(), q);
      LaterKeepsInv(Contents(), q.now);
      clock := q.now;
      var runsBefore, itemsBefore := runs, items;
      var complete := ReconcileExpiredRuns(q.now);
      if !complete {
        return IncompleteReconciliation;
      }
      var available, counts := ReadWorkspaceCapacity(q.now, q.globalLimit);
      if !available {
        return Idle;
      }
      var choice := ChooseRun(q, counts);
      if choice.Truncated? {
        runs, items := runsBefore, itemsBefore;
        return IncompleteCandidateScan;
      }
      if choice.Nobody? {
        return Idle;
      }
      var run := runs[choice.id];
      ClaimSeesItem(Contents(), choice.id, q);
      if run.item !in items {
        assert false;
        return ItemHeld;
      }
      var item := items[run.item];
      var retrying := run.status == Failed;
      var itemAvailable := item.status == Ready || item.status == Active || (retrying && item.status == ItemBlocked);
      var holderAvailable := item.holder.None? || item.holder == Some(q.actor) || item.holder == Some(run.actor)
        || (item.expires.Some? && item.expires.value <= q.now);
      if !itemAvailable || !holderAvailable {
        runs, items := runsBefore, itemsBefore;
        return ItemHeld;
      }
      var leaseExpiresAt := q.now + q.leaseSeconds * 1000;
      runs := runs[choice.id := run.(
        actor := q.actor, status := Starting,
        generation := run.generation + 1, leaseGeneration := run.leaseGeneration + 1,
        owner := Some(q.actor), expires := Some(leaseExpiresAt), nextRetryAt := None)];
      items := items[run.item := item.(status := Active, holder := Some(q.actor), expires := Some(leaseExpiresAt))];
      return Claimed(choice.id);
    }

    method Heartbeat(f: Fence, leaseSeconds: int, now: Time) returns (outcome: Outcome)
      requires Valid() && Admissible(Contents(), OnHeartbeat(f, leaseSeconds, now))
      modifies this
      ensures Valid()
      ensures (Contents(), outcome) == RunnerModel.Heartbeat(old(Contents()), f, leaseSeconds, now)
    {
      hide Inv, Newest;
      StepKeepsInv(Contents(), OnHeartbeat(f, leaseSeconds, now));
      clock := now;
      if f.id >= |runs| {
        return Refused;
      }
      var run := runs[f.id];
      if run.generation != f.generation || !LiveLease(run, f.actor, f.leaseGeneration, now)
        || !HoldsCapacity(run.status) {
        return Refused;
      }
      LiveRunHoldsItem(old(Contents()), f.id);
      if run.item !in items || items[run.item].status != Active || items[run.item].holder != Some(f.actor) {
        assert false;
        return Refused;
      }
      var leaseExpiresAt := now + leaseSeconds * 1000;
      runs := runs[f.id := run.(expires := Some(leaseExpiresAt))];
      items := items[run.item := items[run.item].(expires := Some(leaseExpiresAt))];
      return Applied(runs[f.id]);
    }

    /** Is the item still this run's to change? */
    predicate Projectable(run: QueuedRun, nextOwner: Option<Id>, now: Time)
      reads this
      requires run.item in items
    {
      var item := items[run.item];
      var previousOwner := if run.owner.Some? then run.owner else Some(run.actor);
      && (item.status == Ready || item.status == Active || item.status == ItemBlocked)
      && (item.holder.None? || item.holder == previousOwner || item.holder == nextOwner
          || (item.expires.Some? && item.expires.value <= now))
    }

    method ProjectItem(next: QueuedRun)
      requires next.item in items && RunOk(next) && (next.owner.Some? <==> Leased(next.status))
      requires next.status != Abandoned
      modifies this`items
      ensures items == old(items)[next.item := Projected(old(items)[next.item], next)]
    {
      var item := items[next.item];
      if Leased(next.status) {
        items := items[next.item := item.(status := Active, holder := next.owner, expires := next.expires)];
      } else if next.status == Succeeded {
        items := items[next.item := item.(status := Done, holder := None, expires := None)];
      } else if next.status == Blocked {
        items := items[next.item := item.(status := ItemBlocked, holder := None, expires := None)];
      } else if next.status == Failed {
        items := items[next.item := item.(status := ItemBlocked, holder := None, expires := None)];
      } else if next.status == Cancelled {
        items := items[next.item := item.(status := Ready, holder := None, expires := None)];
      } else {
        assert false;
      }
    }

    method Transition(f: Fence, command: Command, reference: Option<Id>, leaseSeconds: int, now: Time)
      returns (outcome: Outcome)
      requires Valid() && Admissible(Contents(), OnTransition(f, command, reference, leaseSeconds, now))
      modifies this
      ensures Valid()
      ensures (Contents(), outcome) == RunnerModel.Transition(old(Contents()), f, command, reference, leaseSeconds, now)
    {
      hide Inv, Newest, NextRun, Projected;
      StepKeepsInv(Contents(), OnTransition(f, command, reference, leaseSeconds, now));
      clock := now;
      if f.id >= |runs| {
        return Refused;
      }
      var run := runs[f.id];
      if run.generation != f.generation || run.leaseGeneration != f.leaseGeneration || Closed(run) {
        return Refused;
      }
      var next := NextRun(run, command, reference, f.actor, f.leaseGeneration, leaseSeconds, now);
      if next.None? {
        return Refused;
      }
      LiveRunHoldsItem(old(Contents()), f.id);
      RunIsOk(old(Contents()), f.id);
      NextRunIsOk(run, command, reference, f.actor, f.leaseGeneration, leaseSeconds, now);
      NextRunLease(run, command, reference, f.actor, f.leaseGeneration, leaseSeconds, now);
      if run.item !in items || !Projectable(run, next.value.owner, now) {
        assert false;
        return Refused;
      }
      runs := runs[f.id := next.value];
      ProjectItem(next.value);
      return Applied(next.value);
    }

    /** The supervisor's own writer of the run table: it leaves the item alone. */
    method Finish(f: Fence, status: Status, now: Time) returns (outcome: Outcome)
      requires Valid() && Admissible(Contents(), OnFinish(f, status, now))
      modifies this
      ensures Valid() && items == old(items)
      ensures (Contents(), outcome) == RunnerModel.Finish(old(Contents()), f, status, now)
    {
      hide Inv;
      StepKeepsInv(Contents(), OnFinish(f, status, now));
      clock := now;
      if f.id >= |runs| || runs[f.id].continuation.None? {
        return Refused;
      }
      var run := runs[f.id];
      if !Leased(run.status) && run.status != Blocked {
        return Refused;
      }
      if run.owner != Some(f.actor) {
        return Refused;
      }
      if run.generation != f.generation || run.leaseGeneration != f.leaseGeneration {
        return Refused;
      }
      if run.recorded.generation != run.generation || run.recorded.leaseGeneration != run.leaseGeneration {
        return Refused;
      }
      runs := runs[f.id := run.(status := status, generation := run.generation + 1, nextRetryAt := None,
                                recorded := Record(run.generation + 1, run.leaseGeneration))];
      return Applied(runs[f.id]);
    }

    /** The probes for live and retryable runs come after the item checks and find nothing. */
    method Dispatch(q: DispatchRequest) returns (outcome: DispatchOutcome)
      requires Valid() && Admissible(Contents(), OnDispatch(q))
      modifies this
      ensures Valid()
      ensures (Contents(), outcome) == RunnerModel.Dispatch(old(Contents()), q)
    {
      hide Inv, Newest;
      StepKeepsInv(Contents(), OnDispatch(q));
      clock := q.now;
      if q.item !in items || items[q.item].status != Ready {
        return Unavailable;
      }
      var item := items[q.item];
      if item.claimGeneration != q.expectedClaimGeneration {
        return StaleGeneration;
      }
      if item.holder.Some? && item.expires.Some? && item.expires.value > q.now && item.holder.value != q.actor {
        return Unavailable;
      }
      ReadyItemHasNoOpenRun(old(Contents()), q.item);
      assert forall i :: 0 <= i < |runs| && runs[i].item == q.item ==> !OpenFor(old(Contents()), q.item, i);
      var live := exists i :: 0 <= i < |runs| && runs[i].item == q.item && Active5(runs[i].status);
      var retryable := exists i ::
        0 <= i < |runs| && runs[i].item == q.item && runs[i].status == Failed && runs[i].nextRetryAt.Some?;
      if live || retryable {
        assert false;
        return Unavailable;
      }
      var leaseExpiresAt := q.now + q.leaseSeconds * 1000;
      items := items[q.item := item.(status := Active, holder := Some(q.actor), expires := Some(leaseExpiresAt),
        claimGeneration := q.expectedClaimGeneration + 1)];
      runs := runs + [QueuedRun(item.project, q.item, q.actor, q.runnerType, q.profile, q.continuation, q.continuation,
                                Record(1, 1), Queued, 1, 1, Some(q.actor), Some(leaseExpiresAt),
                                0, q.maxAttempts, q.backoff, None, q.now)];
      return Dispatched(|runs| - 1);
    }
  }
}
