/** What the scheduler answers and what each answer leaves, said of the columns of runs and items alone:
    who is granted a claim, which commands are accepted and where they lead, and, over whole histories,
    which write a status comes from. */
module RunnerOutcomes {
  import opened Base
  import opened RunnerTables
  import opened RunnerModel

  // ---------------------------------------------------------------- slots and leases

  predicate InUse(r: QueuedRun, now: Time) {
    && (r.status == Starting || r.status == Running || r.status == Waiting)
    && (r.expires == None || now < r.expires.value)
  }

  /** The runs in use, in all or of one project. */
  function InUseRows(runs: seq<QueuedRun>, now: Time, project: Option<Id>): set<int> {
    set i | 0 <= i < |runs| && InUse(runs[i], now) && (project == None || runs[i].project == project.value)
  }

  lemma InUseRowsGrow(runs: seq<QueuedRun>, now: Time, project: Option<Id>)
    requires runs != []
    ensures var n := |runs| - 1;
            var before := InUseRows(runs[..n], now, project);
            && n !in before
            && InUseRows(runs, now, project) ==
                 before + if HoldsSlot(runs[n], now) && InProject(runs[n], project) then {n} else {}
  {
  }

  lemma {:induction false} SlotsCountRows(runs: seq<QueuedRun>, now: Time, project: Option<Id>)
    ensures Slots(runs, now, project) == |InUseRows(runs, now, project)|
  {
    hide HoldsSlot, InProject, InUseRows;
    if runs == [] {
      NothingInUse(now, project);
    } else {
      SlotsCountRows(runs[..|runs| - 1], now, project);
      InUseRowsGrow(runs, now, project);
    }
  }

  lemma NothingInUse(now: Time, project: Option<Id>)
    ensures InUseRows([], now, project) == {}
  {
  }

  predicate RanOut(r: QueuedRun, now: Time) {
    && (r.status == Queued || r.status == Starting || r.status == Running || r.status == Waiting)
    && r.expires.Some? && r.expires.value <= now
  }

  /** The run once its lease ran out and that was noticed. */
  function Noticed(r: QueuedRun, now: Time): QueuedRun {
    if RanOut(r, now) then
      r.(status := Abandoned, generation := r.generation + 1, owner := None, expires := None, nextRetryAt := None)
    else r
  }

  ghost predicate NewestIs(runs: seq<QueuedRun>, id: Id, i: int) {
    0 <= i < |runs| && runs[i].item == id && forall j :: i < j < |runs| ==> runs[j].item != id
  }

  lemma NewestFound(runs: seq<QueuedRun>, id: Id, i: int)
    ensures NewestIs(runs, id, i) <==> i >= 0 && i == Newest(runs, id)
  {
    hide Newest;
  }

  /** All leases that ran out are noticed, and the items of those runs are ready again; nothing else changes. */
  ghost predicate AllNoticed(t: State, t': State, now: Time) {
    && t'.clock == now && |t'.runs| == |t.runs| && t'.items.Keys == t.items.Keys
    && (forall i :: 0 <= i < |t.runs| ==> t'.runs[i] == Noticed(t.runs[i], now))
    && (forall id, i :: id in t.items && NewestIs(t.runs, id, i) ==>
          t'.items[id] ==
          if RanOut(t.runs[i], now) then t.items[id].(status := Ready, holder := None, expires := None)
          else t.items[id])
    && (forall id :: id in t.items && (forall i :: !NewestIs(t.runs, id, i)) ==> t'.items[id] == t.items[id])
  }

  lemma AbandoningNotices(t: State, now: Time)
    ensures AllNoticed(t, AbandonWhere(t.(clock := now), ExpiredRuns(t.runs, now)), now)
  {
    hide Newest, AbandonWhere;
    var t' := AbandonWhere(t.(clock := now), ExpiredRuns(t.runs, now));
    forall i | 0 <= i < |t.runs| ensures t'.runs[i] == Noticed(t.runs[i], now) {
      assert i in ExpiredRuns(t.runs, now) <==> RanOut(t.runs[i], now);
    }
    forall id, i ensures NewestIs(t.runs, id, i) <==> i >= 0 && i == Newest(t.runs, id) { NewestFound(t.runs, id, i); }
    forall id | id in t.items && (forall i :: !NewestIs(t.runs, id, i))
      ensures Newest(t.runs, id) !in ExpiredRuns(t.runs, now)
    {
      assert !NewestIs(t.runs, id, Newest(t.runs, id));
    }
  }

  /** How many leases of one status ran out. */
  function RanOutRows(runs: seq<QueuedRun>, s: Status, now: Time): set<int> {
    set i | 0 <= i < |runs| && runs[i].status == s && RanOut(runs[i], now)
  }

  lemma RanOutRowsGrow(runs: seq<QueuedRun>, s: Status, now: Time)
    requires runs != []
    ensures var n := |runs| - 1;
            var before := RanOutRows(runs[..n], s, now);
            && n !in before
            && RanOutRows(runs, s, now) == before + if runs[n].status == s && RanOut(runs[n], now) then {n} else {}
  {
    hide RanOut;
  }

  lemma {:induction false} ExpiredCount(runs: seq<QueuedRun>, s: Status, now: Time)
    requires s in {Queued, Starting, Running, Waiting} && forall i :: 0 <= i < |runs| ==> RunOk(runs[i])
    ensures CountMatching(runs, Expired(s, now), None) == |RanOutRows(runs, s, now)|
  {
    hide Matches, RunOk, RanOut, InProject, RanOutRows;
    if runs == [] {
      NoRowsRanOut(s, now);
    } else {
      var n := |runs| - 1;
      ExpiredCount(runs[..n], s, now);
      RanOutRowsGrow(runs, s, now);
      ExpiredRow(runs[n], s, now);
    }
  }

  lemma NoRowsRanOut(s: Status, now: Time)
    ensures RanOutRows([], s, now) == {}
  {
  }

  lemma ExpiredRow(r: QueuedRun, s: Status, now: Time)
    requires s in {Queued, Starting, Running, Waiting} && RunOk(r)
    ensures Matches(r, Expired(s, now)) <==> r.status == s && RanOut(r, now)
    ensures InProject(r, None)
  {
  }

  /** Too many leases ran out for one pass: more than a hundred of one status. */
  ghost predicate TooMany(runs: seq<QueuedRun>, now: Time) {
    || |RanOutRows(runs, Queued, now)| > 100 || |RanOutRows(runs, Starting, now)| > 100
    || |RanOutRows(runs, Running, now)| > 100 || |RanOutRows(runs, Waiting, now)| > 100
  }

  lemma ScanFindsRanOut(t: State, s: Status, now: Time)
    requires Inv(t) && s in {Queued, Starting, Running, Waiting}
    ensures |Scan(t.runs, Expired(s, now))| == |RanOutRows(t.runs, s, now)|
  {
    hide Inv, Scan, RanOutRows, RunOk;
    forall i | 0 <= i < |t.runs| ensures RunOk(t.runs[i]) { RunIsOk(t, i); }
    ScanCounts(t.runs, Expired(s, now), None);
    ExpiredCount(t.runs, s, now);
  }

  lemma TooManyFound(t: State, now: Time)
    requires Inv(t)
    ensures TooManyExpired(t.runs, now) <==> TooMany(t.runs, now)
  {
    hide Inv, Scan, RanOutRows;
    forall s | 0 <= s < 4
      ensures |Scan(t.runs, Expired(EXPIRING_STATUSES[s], now))| == |RanOutRows(t.runs, EXPIRING_STATUSES[s], now)|
    {
      ScanFindsRanOut(t, EXPIRING_STATUSES[s], now);
    }
    assert EXPIRING_STATUSES[0] == Queued && EXPIRING_STATUSES[1] == Starting;
    assert EXPIRING_STATUSES[2] == Running && EXPIRING_STATUSES[3] == Waiting;
  }

  /** The reconciliation of a workspace does all of it, or nothing when there is too much. */
  lemma ReconciliationExactly(t: State, now: Time)
    requires Inv(t)
    ensures if TooMany(t.runs, now) then ReconcileAll(t, now) == t.(clock := now)
            else AllNoticed(t, ReconcileAll(t, now), now)
  {
    hide Inv, TooManyExpired, TooMany, AllNoticed, AbandonWhere, ExpiredRuns;
    TooManyFound(t, now);
    AbandoningNotices(t, now);
  }

  // ---------------------------------------------------------------- claiming

  /** The claim asks for this run: its runner type and profile, the project and run where it names them,
      and the run waits under a live lease or for a retry that is due and within its budget. */
  predicate Wanted(r: QueuedRun, i: int, q: ClaimRequest) {
    && r.runnerType == q.runnerType && r.profile == q.profile
    && (q.project.Some? ==> r.project == q.project.value) && (q.run.Some? ==> i == q.run.value)
    && (|| (r.status == Queued && (r.expires == None || q.now < r.expires.value))
        || (r.status == Failed && r.nextRetryAt.Some? && r.nextRetryAt.value <= q.now
            && r.retryAttempt < r.maxAttempts))
  }

  /** Its project has room for one more. */
  predicate HasRoom(runs: seq<QueuedRun>, i: int, q: ClaimRequest)
    requires 0 <= i < |runs|
  {
    |InUseRows(runs, q.now, Some(runs[i].project))| < q.projectLimit
  }

  ghost predicate Grantable(runs: seq<QueuedRun>, i: int, q: ClaimRequest) {
    0 <= i < |runs| && Wanted(runs[i], i, q) && HasRoom(runs, i, q)
  }

  lemma ClaimableMeans(runs: seq<QueuedRun>, i: nat, q: ClaimRequest)
    requires q.run.None? || i == q.run.value
    ensures Claimable(runs, i, q) <==> Grantable(runs, i, q)
  {
    hide Slots, InUseRows;
    if i < |runs| { SlotsCountRows(runs, q.now, Some(runs[i].project)); }
  }

  lemma NoticingKeepsUse(t: State, t1: State, now: Time, project: Option<Id>)
    requires AllNoticed(t, t1, now)
    ensures InUseRows(t1.runs, now, project) == InUseRows(t.runs, now, project)
  {
    assert forall i :: 0 <= i < |t.runs| ==> t1.runs[i] == Noticed(t.runs[i], now);
  }

  lemma NoticingKeepsGrantable(t: State, t1: State, i: int, q: ClaimRequest)
    requires AllNoticed(t, t1, q.now)
    ensures Grantable(t1.runs, i, q) <==> Grantable(t.runs, i, q)
    ensures Grantable(t.runs, i, q) ==> t1.runs[i] == t.runs[i]
  {
    hide InUseRows;
    if 0 <= i < |t.runs| {
      assert t1.runs[i] == Noticed(t.runs[i], q.now);
      NoticingKeepsUse(t, t1, q.now, Some(t.runs[i].project));
    }
  }

  /** The states a claim works on: the tables once leases that ran out are noticed. */
  function Reconciled(t: State, now: Time): State { AbandonWhere(t.(clock := now), ExpiredRuns(t.runs, now)) }

  /** A granted claim is of a run that was wanted and had room in its project and in the workspace. */
  lemma GrantedRunFits(t: State, q: ClaimRequest)
    requires Inv(t) && Admissible(t, OnClaim(q)) && Claim(t, q).1.Claimed?
    ensures Grantable(t.runs, Claim(t, q).1.id, q) && |InUseRows(t.runs, q.now, None)| < q.globalLimit
    ensures !TooMany(t.runs, q.now)
  {
    hide Inv, Grantable, InUseRows, Slots, Claimable, TooManyExpired, TooMany, AllNoticed, AbandonWhere, ExpiredRuns;
    hide ItemAllowsClaim, Choose, Scan;
    var t1 := Reconciled(t, q.now);
    AbandoningNotices(t, q.now);
    TooManyFound(t, q.now);
    SlotsCountRows(t1.runs, q.now, None);
    NoticingKeepsUse(t, t1, q.now, None);
    var i := Claim(t, q).1.id;
    ChosenIsAsked(t1.runs, q);
    ClaimableMeans(t1.runs, i, q);
    NoticingKeepsGrantable(t, t1, i, q);
  }

  lemma ChosenIsAsked(runs: seq<QueuedRun>, q: ClaimRequest)
    ensures Choose(runs, q).Chosen? ==>
              Claimable(runs, Choose(runs, q).id, q) && (q.run.Some? ==> Choose(runs, q).id == q.run.value)
  {
    hide Claimable, Scan;
  }

  /** What a granted claim leaves: the run is starting under a new lease of the claiming actor, its item is
      held by it, and everywhere else only leases that ran out were noticed. */
  lemma GrantEffect(t: State, q: ClaimRequest)
    requires Inv(t) && Admissible(t, OnClaim(q)) && Claim(t, q).1.Claimed?
    ensures var (t', outcome) := Claim(t, q);
            var i, t1 := outcome.id, Reconciled(t, q.now);
            && AllNoticed(t, t1, q.now) && i < |t.runs|
            && var r := t.runs[i];
            var expires := Some(q.now + 1000 * q.leaseSeconds);
            && t'.clock == q.now
            && t'.runs == t1.runs[i := r.(actor := q.actor, status := Starting, generation := r.generation + 1,
                                          leaseGeneration := r.leaseGeneration + 1, owner := Some(q.actor),
                                          expires := expires, nextRetryAt := None)]
            && r.item in t1.items
            && t'.items == t1.items[r.item :=
                 t1.items[r.item].(status := Active, holder := Some(q.actor), expires := expires)]
  {
    hide Inv, Grantable, InUseRows, Slots, Claimable, TooManyExpired, TooMany, AllNoticed, AbandonWhere, ExpiredRuns;
    hide ItemAllowsClaim, Choose, Scan;
    AbandoningNotices(t, q.now);
    GrantedRunFits(t, q);
    NoticingKeepsGrantable(t, Reconciled(t, q.now), Claim(t, q).1.id, q);
    assert Grantable(t.runs, Claim(t, q).1.id, q);
    GrantableRow(t.runs, Claim(t, q).1.id, q);
  }

  lemma GrantableRow(runs: seq<QueuedRun>, i: int, q: ClaimRequest)
    requires Grantable(runs, i, q)
    ensures 0 <= i < |runs|
  {
  }

  /** A claim that finds nothing although there is capacity: no run was wanted and had room. */
  lemma IdleMeansNothingFits(t: State, q: ClaimRequest)
    requires Inv(t) && Admissible(t, OnClaim(q)) && Claim(t, q).1 == Idle
    requires |InUseRows(t.runs, q.now, None)| < q.globalLimit
    ensures forall i :: !Grantable(t.runs, i, q)
  {
    hide Inv, Grantable, InUseRows, Slots, Claimable, TooManyExpired, TooMany, AllNoticed, AbandonWhere, ExpiredRuns;
    hide ItemAllowsClaim, Choose, Scan;
    var t1 := Reconciled(t, q.now);
    AbandoningNotices(t, q.now);
    LaterKeepsInv(t, q.now);
    AbandonKeepsInv(t.(clock := q.now), ExpiredRuns(t.runs, q.now));
    SlotsCountRows(t1.runs, q.now, None);
    NoticingKeepsUse(t, t1, q.now, None);
    assert Choose(t1.runs, q).Nobody?;
    forall i ensures !Grantable(t.runs, i, q) {
      if Grantable(t.runs, i, q) {
        GrantableRow(t.runs, i, q);
        AskedFor(t.runs, i, q);
        NoticingKeepsGrantable(t, t1, i, q);
        ClaimableMeans(t1.runs, i, q);
        NobodyMeans(t1, q, i);
        assert false;
      }
    }
  }

  lemma AskedFor(runs: seq<QueuedRun>, i: int, q: ClaimRequest)
    requires Grantable(runs, i, q)
    ensures q.run.Some? ==> i == q.run.value
  {
  }

  lemma NobodyMeans(t: State, q: ClaimRequest, i: nat)
    requires Inv(t) && Choose(t.runs, q).Nobody? && (q.run.Some? ==> i == q.run.value)
    ensures !Claimable(t.runs, i, q)
  {
    hide Inv, Claimable, Scan;
    if q.run.None? { ChoiceIsGloballyFirst(t, q); }
  }

  /** The granted run comes before every other that fits: due retries by their time, then queued runs by age. */
  lemma GrantedIsFirst(t: State, q: ClaimRequest, j: int)
    requires Inv(t) && Admissible(t, OnClaim(q)) && Claim(t, q).1.Claimed? && Grantable(t.runs, j, q)
    ensures var i := Claim(t, q).1.id;
            && i < |t.runs| && j < |t.runs|
            && var r, other := t.runs[i], t.runs[j];
            || i == j
            || (r.status == Failed && other.status == Queued)
            || (r.status == other.status == Queued && i < j)
            || (r.status == other.status == Failed && r.nextRetryAt.Some? && other.nextRetryAt.Some?
                && (r.nextRetryAt.value < other.nextRetryAt.value || (r.nextRetryAt == other.nextRetryAt && i < j)))
  {
    hide Inv, InUseRows, HasRoom, Slots, Claimable, TooManyExpired, TooMany, AllNoticed, AbandonWhere, ExpiredRuns;
    hide ItemAllowsClaim, Choose, Scan;
    var i := Claim(t, q).1.id;
    var t1 := Reconciled(t, q.now);
    AbandoningNotices(t, q.now);
    LaterKeepsInv(t, q.now);
    AbandonKeepsInv(t.(clock := q.now), ExpiredRuns(t.runs, q.now));
    GrantedRunFits(t, q);
    NoticingKeepsGrantable(t, t1, i, q);
    NoticingKeepsGrantable(t, t1, j, q);
    if q.run.None? {
      ClaimableMeans(t1.runs, j, q);
      ChoiceIsGloballyFirst(t1, q);
    }
  }

  /** A claim throws, leaving everything as it was, only over too many leases that ran out, over more than
      a hundred candidates of one kind, or over the item. */
  lemma ClaimRefusals(t: State, q: ClaimRequest)
    requires Inv(t) && Admissible(t, OnClaim(q))
    ensures Claim(t, q).1 == IncompleteReconciliation <==> TooMany(t.runs, q.now)
    ensures Claim(t, q).1 != Idle && !Claim(t, q).1.Claimed? ==> Claim(t, q).0 == t.(clock := q.now)
    ensures Claim(t, q).1 == Idle ==> AllNoticed(t, Claim(t, q).0, q.now)
  {
    hide Inv, TooManyExpired, TooMany, AllNoticed, AbandonWhere, ExpiredRuns, ItemAllowsClaim, Choose, Scan, Slots;
    TooManyFound(t, q.now);
    AbandoningNotices(t, q.now);
  }

  /** The waiting runs of a project (of all, for None), and the failed ones whose retry is due. */
  function WaitingRows(runs: seq<QueuedRun>, project: Option<Id>): set<int> {
    set i | 0 <= i < |runs| && runs[i].status == Queued && (project == None || runs[i].project == project.value)
  }

  function RetryRows(runs: seq<QueuedRun>, project: Option<Id>, now: Time): set<int> {
    set i | 0 <= i < |runs| && runs[i].status == Failed && (project == None || runs[i].project == project.value)
            && runs[i].nextRetryAt.Some? && runs[i].nextRetryAt.value <= now
  }

  lemma WaitingRowsGrow(runs: seq<QueuedRun>, project: Option<Id>)
    requires runs != []
    ensures var n := |runs| - 1;
            var before := WaitingRows(runs[..n], project);
            && n !in before
            && WaitingRows(runs, project) == before + if Matches(runs[n], Backlog(project)) then {n} else {}
  {
  }

  lemma {:induction false} WaitingCount(runs: seq<QueuedRun>, project: Option<Id>)
    ensures CountMatching(runs, Backlog(project), None) == |WaitingRows(runs, project)|
  {
    hide Matches, WaitingRows;
    if runs == [] {
      NobodyWaits(project);
    } else {
      WaitingCount(runs[..|runs| - 1], project);
      WaitingRowsGrow(runs, project);
    }
  }

  lemma NobodyWaits(project: Option<Id>)
    ensures WaitingRows([], project) == {}
  {
  }

  lemma {:induction false} RetryCount(runs: seq<QueuedRun>, project: Option<Id>, now: Time)
    ensures CountMatching(runs, Due(project, now), None) <= |RetryRows(runs, project, now)|
  {
    if runs != [] {
      var n := |runs| - 1;
      RetryCount(runs[..n], project, now);
      var rest, all := RetryRows(runs[..n], project, now), RetryRows(runs, project, now);
      if Matches(runs[n], Due(project, now)) {
        assert all == rest + {n};
      } else {
        assert rest <= all;
        CardinalityGrows(rest, all);
      }
    }
  }

  lemma {:induction false} CardinalityGrows(a: set<int>, b: set<int>)
    requires a <= b
    ensures |a| <= |b|
  {
    assert b == a + (b - a);
  }

  /** Candidates are cut off only where a pool has more than a hundred. */
  lemma TruncationMeansMany(t: State, q: ClaimRequest)
    requires Inv(t) && Admissible(t, OnClaim(q)) && Claim(t, q).1 == IncompleteCandidateScan
    ensures q.run.None?
    ensures |WaitingRows(t.runs, q.project)| > 100 || |RetryRows(t.runs, q.project, q.now)| > 100
  {
    hide Inv, InUseRows, Slots, Claimable, TooManyExpired, AllNoticed, AbandonWhere, ExpiredRuns, WaitingRows;
    hide RetryRows;
    hide ItemAllowsClaim, Scan, FirstClaimable;
    var t1 := Reconciled(t, q.now);
    AbandoningNotices(t, q.now);
    ScanCounts(t1.runs, Due(q.project, q.now), None);
    ScanCounts(t1.runs, Backlog(q.project), None);
    WaitingCount(t1.runs, q.project);
    RetryCount(t1.runs, q.project, q.now);
    NoticingAddsNone(t, t1, q);
  }

  lemma NoticingAddsNone(t: State, t1: State, q: ClaimRequest)
    requires AllNoticed(t, t1, q.now)
    ensures |WaitingRows(t1.runs, q.project)| <= |WaitingRows(t.runs, q.project)|
    ensures |RetryRows(t1.runs, q.project, q.now)| <= |RetryRows(t.runs, q.project, q.now)|
  {
    assert forall i :: 0 <= i < |t.runs| ==> t1.runs[i] == Noticed(t.runs[i], q.now);
    CardinalityGrows(WaitingRows(t1.runs, q.project), WaitingRows(t.runs, q.project));
    CardinalityGrows(RetryRows(t1.runs, q.project, q.now), RetryRows(t.runs, q.project, q.now));
  }

  /** Whoever asks for a run that fits, in a workspace with capacity, is granted one, unless the claim
      throws over leases that ran out, over a pool that is cut off, or over a run taken over by a retry. */
  lemma ClaimSucceeds(t: State, q: ClaimRequest, j: int)
    requires Inv(t) && Admissible(t, OnClaim(q)) && Grantable(t.runs, j, q)
    requires |InUseRows(t.runs, q.now, None)| < q.globalLimit
    ensures Claim(t, q).1.Claimed? || Claim(t, q).1 == ItemHeld || TooMany(t.runs, q.now)
            || |WaitingRows(t.runs, q.project)| > 100 || |RetryRows(t.runs, q.project, q.now)| > 100
  {
    hide Inv, Claim, Grantable, InUseRows, TooMany, WaitingRows, RetryRows;
    ClaimRefusals(t, q);
    if Claim(t, q).1 == Idle { IdleMeansNothingFits(t, q); }
    if Claim(t, q).1 == IncompleteCandidateScan { TruncationMeansMany(t, q); }
  }

  // ---------------------------------------------------------------- commands

  /** Where each command may start, and where it leads. */
  const COMMANDS: set<(Status, Command, Status)> := {
    (Queued, Start, Starting), (Starting, Run, Running), (Running, Wait, Waiting),
    (Starting, Block, Blocked), (Running, Block, Blocked), (Waiting, Block, Blocked),
    (Waiting, Resume, Running), (Blocked, Resume, Running),
    (Starting, Succeed, Succeeded), (Running, Succeed, Succeeded), (Waiting, Succeed, Succeeded),
    (Blocked, Succeed, Succeeded),
    (Starting, Fail, Failed), (Running, Fail, Failed), (Waiting, Fail, Failed), (Blocked, Fail, Failed),
    (Failed, Retry, Queued),
    (Queued, Cancel, Cancelled), (Starting, Cancel, Cancelled), (Running, Cancel, Cancelled),
    (Waiting, Cancel, Cancelled), (Blocked, Cancel, Cancelled), (Failed, Cancel, Cancelled)
  }

  predicate HasLease(s: Status) { s == Queued || s == Starting || s == Running || s == Waiting }

  /** The fence names the run as it is. */
  predicate Fenced(t: State, f: Fence) {
    f.id < |t.runs| && t.runs[f.id].generation == f.generation && t.runs[f.id].leaseGeneration == f.leaseGeneration
  }

  predicate LeasedTo(r: QueuedRun, actor: Id, now: Time) {
    r.owner == Some(actor) && r.expires.Some? && now < r.expires.value
  }

  /** A command is accepted exactly when its fence names the run as it is, the run's status is one it may
      start from, a leased run is leased to the actor unless it is cancelled, a failed run has a retry
      planned, and a retry is due and within the budget. */
  lemma TransitionExactly(t: State, f: Fence, command: Command, reference: Option<Id>, leaseSeconds: int, now: Time)
    requires Inv(t)
    ensures Transition(t, f, command, reference, leaseSeconds, now).1.Applied? <==>
              && Fenced(t, f)
              && var r := t.runs[f.id];
              && (exists to :: (r.status, command, to) in COMMANDS)
              && (HasLease(r.status) && command != Cancel ==> LeasedTo(r, f.actor, now))
              && (r.status == Failed ==> r.nextRetryAt.Some?)
              && (command == Retry ==>
                    r.nextRetryAt.Some? && r.nextRetryAt.value <= now && r.retryAttempt < r.maxAttempts)
    ensures Transition(t, f, command, reference, leaseSeconds, now).1.Refused? ==>
              Transition(t, f, command, reference, leaseSeconds, now).0 == t.(clock := now)
  {
    hide Inv, WithRun, NextRun, Closed;
    if Fenced(t, f) {
      RunIsOk(t, f.id);
      ClosedStartsNothing(t.runs[f.id], command);
      if !Closed(t.runs[f.id]) {
        CommandStarts(t.runs[f.id], command, reference, f.actor, f.leaseGeneration, leaseSeconds, now);
      }
    }
  }

  lemma ClosedStartsNothing(r: QueuedRun, command: Command)
    ensures Closed(r) ==>
              !(exists to :: (r.status, command, to) in COMMANDS) || (r.status == Failed && r.nextRetryAt.None?)
    ensures !Closed(r) && r.status == Failed ==> r.nextRetryAt.Some?
  {
  }

  lemma CommandStarts(r: QueuedRun, command: Command, reference: Option<Id>, actor: Id, leaseGeneration: int,
          leaseSeconds: int, now: Time)
    requires RunOk(r) && !Closed(r) && r.leaseGeneration == leaseGeneration
    ensures NextRun(r, command, reference, actor, leaseGeneration, leaseSeconds, now).Some? <==>
              && (exists to :: (r.status, command, to) in COMMANDS)
              && (HasLease(r.status) && command != Cancel ==> LeasedTo(r, actor, now))
              && (command == Retry ==>
                    r.nextRetryAt.Some? && r.nextRetryAt.value <= now && r.retryAttempt < r.maxAttempts)
  {
    var n := NextRun(r, command, reference, actor, leaseGeneration, leaseSeconds, now);
    if n.Some? { assert (r.status, command, n.value.status) in COMMANDS; }
  }

  /** The run an accepted command leaves. */
  function Commanded(r: QueuedRun, command: Command, to: Status, reference: Option<Id>, actor: Id, leaseSeconds: int,
          now: Time): QueuedRun {
    var newLease := HasLease(to) && !HasLease(r.status);
    r.(status := to,
       generation := r.generation + 1,
       continuation := if reference.Some? then reference else r.continuation,
       leaseGeneration := if newLease then r.leaseGeneration + 1 else r.leaseGeneration,
       owner := if newLease then Some(actor) else if HasLease(to) then r.owner else None,
       expires := if newLease then Some(now + 1000 * leaseSeconds) else if HasLease(to) then r.expires else None,
       retryAttempt := if command == Fail then r.retryAttempt + 1 else r.retryAttempt,
       nextRetryAt :=
         if command == Fail && r.retryAttempt + 1 < r.maxAttempts
         then Some(now + r.backoff * (r.retryAttempt + 1) * 1000) else None,
       recorded :=
         if command == Succeed || command == Fail || command == Cancel
         then Record(r.generation + 1, r.leaseGeneration) else r.recorded)
  }

  /** What a run's item shows once a command has led the run to a status. */
  function ShownItem(item: Item, r: QueuedRun): Item {
    if HasLease(r.status) then item.(status := Active, holder := r.owner, expires := r.expires)
    else
      item.(status := match r.status
                      case Succeeded => Done
                      case Blocked => ItemBlocked
                      case Failed => ItemBlocked
                      case _ => Ready,
            holder := None, expires := None)
  }

  /** What an accepted command leaves: the run in the status it leads to, with the lease, the retry and the
      execution record that go with it, its item showing that, and nothing else changed. */
  lemma TransitionEffect(t: State, f: Fence, command: Command, reference: Option<Id>, leaseSeconds: int, now: Time,
          to: Status)
    requires Inv(t) && Transition(t, f, command, reference, leaseSeconds, now).1.Applied?
    requires (t.runs[f.id].status, command, to) in COMMANDS
    ensures var t' := Transition(t, f, command, reference, leaseSeconds, now).0;
            var r' := Commanded(t.runs[f.id], command, to, reference, f.actor, leaseSeconds, now);
            && t'.clock == now && t'.runs == t.runs[f.id := r']
            && r'.item in t.items && t'.items == t.items[r'.item := ShownItem(t.items[r'.item], r')]
  {
    hide Inv, NextRun, Commanded, Projected, ShownItem, RunOk, Closed;
    RunIsOk(t, f.id);
    OpenRunItem(t, f.id);
    var r := t.runs[f.id];
    NextRunIsCommanded(r, command, to, reference, f.actor, leaseSeconds, now);
    CommandedShows(t.items[r.item], r, command, to, reference, f.actor, leaseSeconds, now);
  }

  lemma NextRunIsCommanded(r: QueuedRun, command: Command, to: Status, reference: Option<Id>, actor: Id,
          leaseSeconds: int, now: Time)
    requires RunOk(r) && !Closed(r) && (r.status, command, to) in COMMANDS
    ensures var n := NextRun(r, command, reference, actor, r.leaseGeneration, leaseSeconds, now);
            n.Some? ==> n.value == Commanded(r, command, to, reference, actor, leaseSeconds, now)
  {
    hide Commanded, NextRun, RunOk;
    if command in {Start, Run, Wait, Resume, Retry} {
      LeasingCommand(r, command, to, reference, actor, leaseSeconds, now);
    } else {
      EndingCommand(r, command, to, reference, actor, leaseSeconds, now);
    }
  }

  lemma LeasingCommand(r: QueuedRun, command: Command, to: Status, reference: Option<Id>, actor: Id,
          leaseSeconds: int, now: Time)
    requires RunOk(r) && !Closed(r) && to == StatusAfter(ByCommand(command))
    requires match command
             case Start => r.status == Queued
             case Run => r.status == Starting
             case Wait => r.status == Running
             case Resume => r.status in {Waiting, Blocked}
             case Retry => r.status == Failed
             case _ => false
    ensures var n := NextRun(r, command, reference, actor, r.leaseGeneration, leaseSeconds, now);
            n.Some? ==> n.value == Commanded(r, command, to, reference, actor, leaseSeconds, now)
  {
  }

  lemma EndingCommand(r: QueuedRun, command: Command, to: Status, reference: Option<Id>, actor: Id,
          leaseSeconds: int, now: Time)
    requires RunOk(r) && !Closed(r) && command in {Block, Succeed, Fail, Cancel}
    requires to == StatusAfter(ByCommand(command))
    ensures var n := NextRun(r, command, reference, actor, r.leaseGeneration, leaseSeconds, now);
            n.Some? ==> n.value == Commanded(r, command, to, reference, actor, leaseSeconds, now)
  {
  }

  lemma CommandedShows(item: Item, r: QueuedRun, command: Command, to: Status, reference: Option<Id>, actor: Id,
          leaseSeconds: int, now: Time)
    requires RunOk(r) && (r.status, command, to) in COMMANDS
    ensures var r' := Commanded(r, command, to, reference, actor, leaseSeconds, now);
            Projected(item, r') == ShownItem(item, r') && r'.item == r.item
  {
  }

  lemma OpenRunItem(t: State, i: nat)
    requires Inv(t) && i < |t.runs|
    ensures t.runs[i].item in t.items
  {
    assert MirrorsNewest(t, t.runs[i].item);
  }

  /** A heartbeat is accepted exactly under the live lease of the fence while the run is in use, and moves
      the expiry of run and item to the same time. */
  lemma HeartbeatExactly(t: State, f: Fence, leaseSeconds: int, now: Time)
    requires Inv(t)
    ensures Heartbeat(t, f, leaseSeconds, now).1.Applied? <==>
              && Fenced(t, f) && LeasedTo(t.runs[f.id], f.actor, now)
              && t.runs[f.id].status in {Starting, Running, Waiting}
    ensures var (t', outcome) := Heartbeat(t, f, leaseSeconds, now);
            if outcome.Applied? then
              var expires := Some(now + 1000 * leaseSeconds);
              var id := t.runs[f.id].item;
              && t'.clock == now && t'.runs == t.runs[f.id := t.runs[f.id].(expires := expires)]
              && id in t.items && t.items[id].status == Active && t.items[id].holder == Some(f.actor)
              && t'.items == t.items[id := t.items[id].(expires := expires)]
            else t' == t.(clock := now)
  {
    hide Newest;
    if f.id < |t.runs| {
      assert MirrorsNewest(t, t.runs[f.id].item);
      if !Closed(t.runs[f.id]) { OpenIsNewest(t, f.id); }
    }
  }

  /** What a finish leaves: the run ended in that status with its lease still on it, and nothing else. */
  lemma FinishEffect(t: State, f: Fence, status: Status, now: Time)
    requires Inv(t)
    ensures var (t', outcome) := Finish(t, f, status, now);
            if outcome.Applied? then
              && f.id < |t.runs| && t'.clock == now && t'.items == t.items
              && var r := t.runs[f.id];
              t'.runs == t.runs[f.id := r.(status := status, generation := r.generation + 1, nextRetryAt := None,
                                           recorded := Record(r.generation + 1, r.leaseGeneration))]
            else t' == t.(clock := now)
  {
  }

  /** A dispatch is accepted exactly by a ready item that is not held by another actor, at the generation
      it has; it appends one queued run under a first lease and activates the item. */
  lemma DispatchExactly(t: State, q: DispatchRequest)
    requires Inv(t)
    ensures Dispatch(t, q).1.Dispatched? <==>
              && q.item in t.items && t.items[q.item].status == Ready
              && t.items[q.item].claimGeneration == q.expectedClaimGeneration
              && (|| t.items[q.item].holder == None || t.items[q.item].holder == Some(q.actor)
                  || t.items[q.item].expires == None || t.items[q.item].expires.value <= q.now)
    ensures var (t', outcome) := Dispatch(t, q);
            if outcome.Dispatched? then
              var item, expires := t.items[q.item], Some(q.now + 1000 * q.leaseSeconds);
              && outcome.id == |t.runs| && t'.clock == q.now
              && t'.runs == t.runs + [QueuedRun(item.project, q.item, q.actor, q.runnerType, q.profile, q.continuation,
                                                q.continuation, Record(1, 1), Queued, 1, 1, Some(q.actor), expires,
                                                0, q.maxAttempts, q.backoff, None, q.now)]
              && t'.items ==
                 t.items[q.item := Item(item.project, Active, Some(q.actor), expires, item.claimGeneration + 1)]
            else t' == t.(clock := q.now)
  {
    hide Inv;
  }

  /** Reading a run notices that its lease ran out, and then its item is ready again; nothing else changes. */
  lemma GetExactly(t: State, id: nat, now: Time)
    requires Inv(t) && id < |t.runs|
    ensures t.runs[id].item in t.items
    ensures ReconcileOne(t, id, now) ==
              if RanOut(t.runs[id], now) then
                var item := t.runs[id].item;
                State(t.runs[id := Noticed(t.runs[id], now)],
                      t.items[item := t.items[item].(status := Ready, holder := None, expires := None)], now)
              else t.(clock := now)
  {
    hide Inv, AbandonWhere, Newest;
    OpenRunItem(t, id);
    RanOutIsNewest(t, id, now);
    if RanOut(t.runs[id], now) { AbandonOne(t.(clock := now), id); }
  }

  lemma RanOutIsNewest(t: State, i: nat, now: Time)
    requires Inv(t) && i < |t.runs|
    ensures IsExpired(t.runs[i], now) <==> RanOut(t.runs[i], now)
    ensures RanOut(t.runs[i], now) ==>
              Noticed(t.runs[i], now) == Abandon(t.runs[i]) && Newest(t.runs, t.runs[i].item) == i
  {
    hide Newest;
    if RanOut(t.runs[i], now) { OpenIsNewest(t, i); }
  }

  lemma AbandonOne(t: State, i: nat)
    requires i < |t.runs| && Newest(t.runs, t.runs[i].item) == i && t.runs[i].item in t.items
    ensures var item := t.runs[i].item;
            AbandonWhere(t, {i}) ==
              State(t.runs[i := Abandon(t.runs[i])],
                    t.items[item := t.items[item].(status := Ready, holder := None, expires := None)], t.clock)
  {
    hide AbandonWhere, Newest, Abandon;
    var t', item := AbandonWhere(t, {i}), t.runs[i].item;
    assert t'.runs == t.runs[i := Abandon(t.runs[i])];
    assert t'.items == t.items[item := t.items[item].(status := Ready, holder := None, expires := None)];
  }

  // ---------------------------------------------------------------- the write a status comes from

  datatype Write =
    | ByDispatch | ByClaim | ByCommand(command: Command) | ByFinish(status: Status) | ByReconciliation

  /** The status each write leads to. */
  function StatusAfter(w: Write): Status {
    match w
    case ByDispatch => Queued
    case ByClaim => Starting
    case ByCommand(Start) => Starting
    case ByCommand(Run) => Running
    case ByCommand(Resume) => Running
    case ByCommand(Wait) => Waiting
    case ByCommand(Block) => Blocked
    case ByCommand(Succeed) => Succeeded
    case ByCommand(Fail) => Failed
    case ByCommand(Retry) => Queued
    case ByCommand(Cancel) => Cancelled
    case ByFinish(status) => status
    case ByReconciliation => Abandoned
  }

  /** What the item of a run shows after each write; a finish leaves it active. */
  function ItemAfter(w: Write): ItemStatus {
    match w
    case ByCommand(Succeed) => Done
    case ByCommand(Block) => ItemBlocked
    case ByCommand(Fail) => ItemBlocked
    case ByCommand(Cancel) => Ready
    case ByReconciliation => Ready
    case _ => Active
  }

  /** The write of a step to run i, if it was accepted: a new run, or one whose generation was raised. */
  function WriteOf(t: State, e: Event, i: nat): Option<Write> {
    var t' := Step(t, e);
    if i >= |t'.runs| then None
    else if i >= |t.runs| then Some(ByDispatch)
    else if t'.runs[i].generation == t.runs[i].generation then None
    else
      match e
      case OnClaim(q) => Some(if Claim(t, q).1 == Claimed(i) then ByClaim else ByReconciliation)
      case OnTransition(_, command, _, _, _) => Some(ByCommand(command))
      case OnFinish(_, status, _) => Some(ByFinish(status))
      case _ => Some(ByReconciliation)
  }

  /** The last accepted write of run i in a history, or the one before it. */
  function LastWrite(t: State, es: seq<Event>, i: nat, before: Option<Write>): Option<Write>
    decreases |es|
  {
    if es == [] then before
    else LastWrite(Step(t, es[0]), es[1..], i, if WriteOf(t, es[0], i).Some? then WriteOf(t, es[0], i) else before)
  }

  /** A run is as its last write left it. */
  predicate AsWritten(r: QueuedRun, w: Write) {
    r.status == StatusAfter(w) && (r.owner.Some? <==> ItemAfter(w) == Active)
  }

  lemma CommandWrites(r: QueuedRun, command: Command, reference: Option<Id>, actor: Id, leaseGeneration: int,
          leaseSeconds: int, now: Time)
    requires RunOk(r) && !Closed(r)
    ensures var n := NextRun(r, command, reference, actor, leaseGeneration, leaseSeconds, now);
            n.Some? ==> AsWritten(n.value, ByCommand(command))
  {
  }

  lemma OtherWrites(r: QueuedRun, q: ClaimRequest, status: Status)
    ensures AsWritten(ClaimedRun(r, q), ByClaim) && AsWritten(Abandon(r), ByReconciliation)
    ensures r.owner.Some? ==> AsWritten(Finished(r, status), ByFinish(status))
    ensures ClaimedRun(r, q) != Abandon(r)
  {
  }

  lemma StepWritesStatus(t: State, e: Event, i: nat, w: Option<Write>)
    requires Inv(t) && Admissible(t, e) && i < |Step(t, e).runs|
    requires i < |t.runs| ==> w.Some? && AsWritten(t.runs[i], w.value)
    ensures var v := WriteOf(t, e, i);
            if v.Some? then AsWritten(Step(t, e).runs[i], v.value)
            else i < |t.runs| && AsWritten(Step(t, e).runs[i], w.value)
  {
    hide Inv, Claim, NextRun, TooManyExpired, Newest, Scan, RunOk, Closed, Admissible, ClaimedRun, Abandon, Eligible;
    hide AsWritten, Finished;
    if i < |t.runs| {
      RunIsOk(t, i);
      StepWrites(t, e, i);
      var r, r' := t.runs[i], Step(t, e).runs[i];
      ExpiryIsNoWrite(r, r', w.value);
      match e
      case OnClaim(q) =>
        OtherWrites(r, q, Queued);
        ClaimedFrom(t, q, i);
        GrantedOnly(t, q, i);
      case OnTransition(f, command, reference, leaseSeconds, at) =>
        if !Closed(r) { CommandWrites(r, command, reference, f.actor, f.leaseGeneration, leaseSeconds, at); }
      case OnFinish(f, status, at) =>
        FinishedWrite(r, status);
      case OnReconcile(at) => AbandonedWrite(r);
      case OnGet(_, at) => AbandonedWrite(r);
      case _ =>
    } else {
      AddedByDispatch(t, e, i);
    }
  }

  lemma ExpiryIsNoWrite(r: QueuedRun, r': QueuedRun, w: Write)
    requires Later(r, r')
    ensures r'.generation == r.generation && AsWritten(r, w) ==> AsWritten(r', w) || r.expires.Some? != r'.expires.Some?
    ensures r'.generation == r.generation ==> r'.owner == r.owner && r'.status == r.status
    ensures AsWritten(r, w) && r'.owner == r.owner && r'.status == r.status ==> AsWritten(r', w)
  {
  }

  lemma FinishedWrite(r: QueuedRun, status: Status)
    ensures r.owner.Some? ==> AsWritten(Finished(r, status), ByFinish(status))
  {
  }

  lemma AbandonedWrite(r: QueuedRun)
    ensures AsWritten(Abandon(r), ByReconciliation)
  {
  }

  lemma GrantedOnly(t: State, q: ClaimRequest, i: nat)
    requires i < |t.runs|
    ensures |Claim(t, q).0.runs| == |t.runs|
    ensures Claim(t, q).1 == Claimed(i) || Claim(t, q).0.runs[i] == t.runs[i]
            || Claim(t, q).0.runs[i] == Abandon(t.runs[i])
    ensures Claim(t, q).1 == Claimed(i) ==> Claim(t, q).0.runs[i] == ClaimedRun(t.runs[i], q)
  {
    hide Slots, TooManyExpired, ItemAllowsClaim, Newest, Scan, Choose;
  }

  lemma AddedByDispatch(t: State, e: Event, i: nat)
    requires |t.runs| <= i < |Step(t, e).runs|
    ensures AsWritten(Step(t, e).runs[i], ByDispatch)
  {
    hide Claim, NextRun, TooManyExpired, Newest, Scan;
    if e.OnClaim? { ClaimKeepsLength(t, e.claim); }
  }

  lemma NoWriteBefore(t: State, e: Event, i: nat)
    requires i >= |Step(t, e).runs|
    ensures i >= |t.runs| && WriteOf(t, e, i) == None
  {
    hide Step;
    if i < |t.runs| { StepWrites(t, e, i); }
  }

  lemma {:induction false} HistoryWritesStatus(t: State, es: seq<Event>, i: nat, w: Option<Write>)
    requires Inv(t) && AdmissibleRun(t, es) && i < |RunAll(t, es).runs|
    requires i < |t.runs| ==> w.Some? && AsWritten(t.runs[i], w.value)
    ensures LastWrite(t, es, i, w).Some? && AsWritten(RunAll(t, es).runs[i], LastWrite(t, es, i, w).value)
    decreases |es|
  {
    hide Inv, Step, Admissible, AsWritten, WriteOf;
    if es != [] {
      StepKeepsInv(t, es[0]);
      var v := WriteOf(t, es[0], i);
      if i < |Step(t, es[0]).runs| { StepWritesStatus(t, es[0], i, w); } else { NoWriteBefore(t, es[0], i); }
      HistoryWritesStatus(Step(t, es[0]), es[1..], i, if v.Some? then v else w);
    }
  }

  /** Over every history from tables without runs, the status of a run is the one its last accepted write
      leads to: succeeded exactly by a succeed or a finish that says so, and likewise for every other. */
  lemma StatusIsLastWrite(t: State, es: seq<Event>, i: nat)
    requires Inv(t) && t.runs == [] && AdmissibleRun(t, es) && i < |RunAll(t, es).runs|
    ensures LastWrite(t, es, i, None).Some?
    ensures RunAll(t, es).runs[i].status == StatusAfter(LastWrite(t, es, i, None).value)
  {
    hide Inv;
    HistoryWritesStatus(t, es, i, None);
  }

  /** Over every such history, an item shows what the last accepted write of its newest run stands for: done
      exactly by an accepted succeed, blocked by a block or a fail, ready by a cancel or a reconciliation. */
  lemma ItemIsLastWrite(t: State, es: seq<Event>, id: Id, i: nat)
    requires Inv(t) && t.runs == [] && AdmissibleRun(t, es) && NewestIs(RunAll(t, es).runs, id, i)
    ensures id in RunAll(t, es).items && LastWrite(t, es, i, None).Some?
    ensures RunAll(t, es).items[id].status == ItemAfter(LastWrite(t, es, i, None).value)
  {
    hide Inv, RunAll, NewestIs;
    RunKeepsInv(t, es);
    var t' := RunAll(t, es);
    NewestFound(t'.runs, id, i);
    HistoryWritesStatus(t, es, i, None);
    ItemShows(t', id, i, LastWrite(t, es, i, None).value);
  }

  lemma ItemShows(t: State, id: Id, i: nat, w: Write)
    requires Inv(t) && Newest(t.runs, id) == i && AsWritten(t.runs[i], w)
    ensures id in t.items && t.items[id].status == ItemAfter(w)
  {
    hide Newest;
    assert MirrorsNewest(t, t.runs[i].item) && RunOk(t.runs[i]);
  }
}
