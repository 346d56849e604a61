/** The scheduler of queued runs: what each mutation does to the run and item tables, what holds
    between mutations, and the laws of whole runs.

    Descriptive columns (outcome, checkpoint, usage, heartbeat and start times) are not modelled: no
    decision reads them. Of the execution history only the generations of its latest record are kept:
    every dispatch stores an envelope, and a finish asks for those generations. A mutation that throws
    leaves both tables as they were. */
module RunnerModel {
  import opened Base
  import opened RunnerTables

  datatype ItemStatus = Ready | Active | ItemBlocked | Done | Archived

  datatype Item = Item(project: Id, status: ItemStatus, holder: Option<Id>, expires: Option<Time>, claimGeneration: int)

  datatype State = State(runs: seq<QueuedRun>, items: map<Id, Item>, clock: Time)

  datatype Command = Start | Run | Wait | Block | Resume | Succeed | Fail | Retry | Cancel

  datatype DispatchRequest = DispatchRequest(
    now: Time, item: Id, expectedClaimGeneration: int, actor: Id, runnerType: Id, profile: Profile,
    continuation: Option<Id>, leaseSeconds: int, maxAttempts: int, backoff: int)

  datatype ClaimRequest = ClaimRequest(
    now: Time, actor: Id, runnerType: Id, profile: Profile, project: Option<Id>, run: Option<Id>,
    leaseSeconds: int, globalLimit: int, projectLimit: int)

  datatype Fence = Fence(id: Id, actor: Id, generation: int, leaseGeneration: int)

  datatype DispatchOutcome = Dispatched(id: Id) | StaleGeneration | Unavailable

  datatype ClaimOutcome = Claimed(id: Id) | Idle | IncompleteReconciliation | IncompleteCandidateScan | ItemHeld

  datatype Outcome = Applied(run: QueuedRun) | Refused

  // ---------------------------------------------------------------- one run

  predicate LiveLease(r: QueuedRun, actor: Id, leaseGeneration: int, now: Time) {
    r.leaseGeneration == leaseGeneration && r.owner == Some(actor) && r.expires.Some? && r.expires.value > now
  }

  /** No command is accepted any more. */
  predicate Closed(r: QueuedRun) { Ended(r.status) || (r.status == Failed && r.nextRetryAt.None?) }

  predicate Active5(s: Status) { Leased(s) || s == Blocked }

  /** The state a command leads to, or None when it is refused. A reference sent with the command is
      stored, and a terminal command adds an execution record. */
  function NextRun(r: QueuedRun, command: Command, reference: Option<Id>, actor: Id, leaseGeneration: int,
          leaseSeconds: int, now: Time): Option<QueuedRun> {
    var common := r.(generation := r.generation + 1,
      continuation := if reference.Some? then reference else r.continuation);
    var recorded := Record(r.generation + 1, r.leaseGeneration);
    var live := LiveLease(r, actor, leaseGeneration, now);
    match command
    case Start => if r.status == Queued && live then Some(common.(status := Starting)) else None
    case Run => if r.status == Starting && live then Some(common.(status := Running)) else None
    case Wait => if r.status == Running && live then Some(common.(status := Waiting)) else None
    case Block =>
      if HoldsCapacity(r.status) && live then Some(common.(status := Blocked, owner := None, expires := None)) else None
    case Resume =>
      if r.status == Waiting && live then Some(common.(status := Running))
      else if r.status == Blocked then
        Some(common.(status := Running, leaseGeneration := r.leaseGeneration + 1, owner := Some(actor),
          expires := Some(now + leaseSeconds * 1000)))
      else None
    case Succeed =>
      if (HoldsCapacity(r.status) && live) || r.status == Blocked
      then Some(common.(status := Succeeded, owner := None, expires := None, nextRetryAt := None, recorded := recorded))
      else None
    case Fail =>
      if (HoldsCapacity(r.status) && live) || r.status == Blocked then
        var attempt := r.retryAttempt + 1;
        Some(common.(status := Failed, owner := None, expires := None, retryAttempt := attempt, recorded := recorded,
                     nextRetryAt :=
                       if attempt < r.maxAttempts then Some(now + r.backoff * Max(attempt, 1) * 1000) else None))
      else None
    case Retry =>
      if r.status == Failed && r.nextRetryAt.Some? && r.nextRetryAt.value <= now && r.retryAttempt < r.maxAttempts then
        Some(common.(status := Queued, leaseGeneration := r.leaseGeneration + 1, owner := Some(actor),
                     expires := Some(now + leaseSeconds * 1000), nextRetryAt := None))
      else None
    case Cancel =>
      if Active5(r.status) || r.status == Failed
      then Some(common.(status := Cancelled, owner := None, expires := None, nextRetryAt := None, recorded := recorded))
      else None
  }

  function Max(a: int, b: int): int { if a < b then b else a }

  predicate IsExpired(r: QueuedRun, now: Time) { Leased(r.status) && r.expires.Some? && r.expires.value <= now }

  function Abandon(r: QueuedRun): QueuedRun {
    r.(status := Abandoned, generation := r.generation + 1, owner := None, expires := None, nextRetryAt := None)
  }

  /** What a run's item must look like: held while the run has an owner, else decided by its status. */
  function Projected(item: Item, r: QueuedRun): Item {
    if r.owner.Some? then item.(status := Active, holder := r.owner, expires := r.expires)
    else
      item.(status := if r.status == Succeeded then Done
        else if r.status == Blocked || r.status == Failed then ItemBlocked else Ready,
            holder := None, expires := None)
  }

  // ---------------------------------------------------------------- the tables

  /** The newest run of an item, or -1. */
  function Newest(runs: seq<QueuedRun>, item: Id): (r: int)
    ensures -1 <= r < |runs|
    ensures r >= 0 ==> runs[r].item == item
    ensures forall j :: r < j < |runs| ==> runs[j].item != item
  {
    if runs == [] then -1
    else if runs[|runs| - 1].item == item then |runs| - 1
    else Newest(runs[..|runs| - 1], item)
  }

  /** The tables once run i has become r, and its item follows. */
  function WithRun(t: State, i: nat, r: QueuedRun): State
    requires i < |t.runs|
  {
    t.(runs := t.runs[i := r],
       items := if r.item in t.items then t.items[r.item := Projected(t.items[r.item], r)] else t.items)
  }

  /** The tables once the picked runs are abandoned, and the items they were newest on are released. */
  function AbandonWhere(t: State, picked: set<int>): (t': State)
    ensures |t'.runs| == |t.runs| && t'.items.Keys == t.items.Keys && t'.clock == t.clock
    ensures forall i :: 0 <= i < |t.runs| ==> t'.runs[i] == if i in picked then Abandon(t.runs[i]) else t.runs[i]
    ensures forall id :: id in t.items ==>
              t'.items[id] == if Newest(t.runs, id) in picked then
                t.items[id].(status := Ready, holder := None, expires := None)
              else t.items[id]
  {
    t.(runs := seq(|t.runs|, (i: nat) requires i < |t.runs| => if i in picked then Abandon(t.runs[i]) else t.runs[i]),
       items := map id | id in t.items ::
         if Newest(t.runs, id) in picked then t.items[id].(status := Ready, holder := None, expires := None)
         else t.items[id])
  }

  function ExpiredRuns(runs: seq<QueuedRun>, now: Time): set<int> {
    set i | 0 <= i < |runs| && IsExpired(runs[i], now)
  }

  const EXPIRING_STATUSES := [Queued, Starting, Running, Waiting]

  /** More leases of one status have run out than one pass will settle. */
  predicate TooManyExpired(runs: seq<QueuedRun>, now: Time) {
    exists s :: 0 <= s < |EXPIRING_STATUSES| && |Scan(runs, Expired(EXPIRING_STATUSES[s], now))| > RECONCILE_LIMIT
  }

  // ---------------------------------------------------------------- choosing a run

  predicate Eligible(r: QueuedRun, q: ClaimRequest) {
    && r.runnerType == q.runnerType && r.profile == q.profile && InProject(r, q.project)
    && if r.status == Queued then r.expires.None? || r.expires.value > q.now
       else r.status == Failed && r.nextRetryAt.Some? && r.nextRetryAt.value <= q.now && r.retryAttempt < r.maxAttempts
  }

  /** Eligible, and the run's project has a free slot. */
  predicate Claimable(runs: seq<QueuedRun>, i: nat, q: ClaimRequest) {
    i < |runs| && Eligible(runs[i], q) && Slots(runs, q.now, Some(runs[i].project)) < q.projectLimit
  }

  /** The first claimable run among the given rows, or -1. */
  function FirstClaimable(runs: seq<QueuedRun>, rows: seq<nat>, q: ClaimRequest): (r: int)
    requires RowsOf(runs, rows)
    ensures -1 <= r
    ensures r >= 0 ==> r in rows && r < |runs| && Claimable(runs, r, q)
    ensures r < 0 ==> forall a :: 0 <= a < |rows| ==> !Claimable(runs, rows[a], q)
  {
    if rows == [] then -1
    else if Claimable(runs, rows[0], q) then rows[0]
    else FirstClaimable(runs, rows[1..], q)
  }

  datatype Choice = Chosen(id: nat) | Nobody | Truncated

  /** The scan of the two candidate pools: due retries before queued runs, one hundred rows each. */
  function Choose(runs: seq<QueuedRun>, q: ClaimRequest): (choice: Choice)
    ensures choice.Chosen? ==> Claimable(runs, choice.id, q)
    ensures choice.Chosen? ==> choice.id < |runs|
  {
    if q.run.Some? then (if Claimable(runs, q.run.value, q) then Chosen(q.run.value) else Nobody)
    else
      var due := Scan(runs, Due(q.project, q.now));
      var retry := FirstClaimable(runs, Take(due, CANDIDATE_SCAN_LIMIT), q);
      if retry >= 0 then Chosen(retry)
      else if |due| > CANDIDATE_SCAN_LIMIT then Truncated
      else
        var backlog := Scan(runs, Backlog(q.project));
        var first := FirstClaimable(runs, Take(backlog, CANDIDATE_SCAN_LIMIT), q);
        if first >= 0 then Chosen(first)
        else if |backlog| > CANDIDATE_SCAN_LIMIT then Truncated
        else Nobody
  }

  /** Is claiming run i preferred to claiming run j? */
  predicate Before(runs: seq<QueuedRun>, i: nat, j: nat)
    requires i < |runs| && j < |runs|
  {
    if runs[i].status == Failed && runs[j].status == Failed
    then runs[i].nextRetryAt.Some? && runs[j].nextRetryAt.Some?
         && (runs[i].nextRetryAt.value < runs[j].nextRetryAt.value
           || (runs[i].nextRetryAt == runs[j].nextRetryAt && i < j))
    else if runs[i].status == runs[j].status then i < j
    else runs[i].status == Failed
  }

  // ---------------------------------------------------------------- the mutations

  predicate OpenFor(t: State, item: Id, i: int) { 0 <= i < |t.runs| && t.runs[i].item == item && !Closed(t.runs[i]) }

  function Dispatch(t: State, q: DispatchRequest): (State, DispatchOutcome) {
    var t0 := t.(clock := q.now);
    if q.item !in t.items || t.items[q.item].status != Ready then (t0, Unavailable)
    else
      var item := t.items[q.item];
      if item.claimGeneration != q.expectedClaimGeneration then (t0, StaleGeneration)
      else if item.holder.Some? && item.expires.Some? && item.expires.value > q.now
        && item.holder.value != q.actor then (t0, Unavailable)
      else
        var expires := Some(q.now + q.leaseSeconds * 1000);
        var run := QueuedRun(item.project, q.item, q.actor, q.runnerType, q.profile, q.continuation, q.continuation,
                             Record(1, 1), Queued, 1, 1, Some(q.actor), expires,
                             0, q.maxAttempts, q.backoff, None, q.now);
        (t0.(runs := t.runs + [run],
             items := t.items[q.item := item.(status := Active, holder := Some(q.actor), expires := expires,
               claimGeneration := item.claimGeneration + 1)]),
         Dispatched(|t.runs|))
  }

  /** Does the item of the chosen run let the claiming actor in? */
  predicate ItemAllowsClaim(item: Item, r: QueuedRun, q: ClaimRequest) {
    && (item.status == Ready || item.status == Active || (r.status == Failed && item.status == ItemBlocked))
    && (item.holder.None? || item.holder == Some(q.actor) || item.holder == Some(r.actor)
        || (item.expires.Some? && item.expires.value <= q.now))
  }

  function ClaimedRun(r: QueuedRun, q: ClaimRequest): QueuedRun {
    r.(actor := q.actor, status := Starting, generation := r.generation + 1, leaseGeneration := r.leaseGeneration + 1,
       owner := Some(q.actor), expires := Some(q.now + q.leaseSeconds * 1000), nextRetryAt := None)
  }

  function Claim(t: State, q: ClaimRequest): (State, ClaimOutcome) {
    var t0 := t.(clock := q.now);
    if TooManyExpired(t.runs, q.now) then (t0, IncompleteReconciliation)
    else
      var t1 := AbandonWhere(t0, ExpiredRuns(t.runs, q.now));
      if Slots(t1.runs, q.now, None) >= q.globalLimit then (t1, Idle)
      else
        match Choose(t1.runs, q)
        case Truncated => (t0, IncompleteCandidateScan)
        case Nobody => (t1, Idle)
        case Chosen(i) =>
          if t1.runs[i].item !in t1.items || !ItemAllowsClaim(t1.items[t1.runs[i].item], t1.runs[i], q) then
            (t0, ItemHeld)
          else (WithRun(t1, i, ClaimedRun(t1.runs[i], q)), Claimed(i))
  }

  function Heartbeat(t: State, f: Fence, leaseSeconds: int, now: Time): (State, Outcome) {
    var t0 := t.(clock := now);
    if f.id >= |t.runs| then (t0, Refused)
    else
      var r := t.runs[f.id];
      if r.generation != f.generation || !LiveLease(r, f.actor, f.leaseGeneration, now)
        || !HoldsCapacity(r.status) then (t0, Refused)
      else
        var r' := r.(expires := Some(now + leaseSeconds * 1000));
        (WithRun(t0, f.id, r'), Applied(r'))
  }

  function Transition(t: State, f: Fence, command: Command, reference: Option<Id>, leaseSeconds: int,
          now: Time): (State, Outcome) {
    var t0 := t.(clock := now);
    if f.id >= |t.runs| then (t0, Refused)
    else
      var r := t.runs[f.id];
      if r.generation != f.generation || r.leaseGeneration != f.leaseGeneration || Closed(r) then (t0, Refused)
      else
        var next := NextRun(r, command, reference, f.actor, f.leaseGeneration, leaseSeconds, now);
        if next.None? then (t0, Refused) else (WithRun(t0, f.id, next.value), Applied(next.value))
  }

  /** The run a supervisor's finish leaves: ended, its lease fields untouched, its item untouched. The
      latest execution record must be of the run's current generations. */
  function Finish(t: State, f: Fence, status: Status, now: Time): (State, Outcome) {
    var t0 := t.(clock := now);
    if f.id >= |t.runs| then (t0, Refused)
    else
      var r := t.runs[f.id];
      if r.continuation.None? || !Active5(r.status) || r.owner != Some(f.actor)
         || r.generation != f.generation || r.leaseGeneration != f.leaseGeneration
         || r.recorded != Record(r.generation, r.leaseGeneration)
      then (t0, Refused)
      else
        var r' := Finished(r, status);
        (t0.(runs := t.runs[f.id := r']), Applied(r'))
  }

  function Finished(r: QueuedRun, status: Status): QueuedRun {
    r.(status := status, generation := r.generation + 1, nextRetryAt := None,
      recorded := Record(r.generation + 1, r.leaseGeneration))
  }

  function ReconcileAll(t: State, now: Time): State {
    var t0 := t.(clock := now);
    if TooManyExpired(t.runs, now) then t0 else AbandonWhere(t0, ExpiredRuns(t.runs, now))
  }

  function ReconcileOne(t: State, id: Id, now: Time): State {
    var t0 := t.(clock := now);
    if id < |t.runs| && IsExpired(t.runs[id], now) then AbandonWhere(t0, {id}) else t0
  }

  datatype Event =
    | OnDispatch(dispatch: DispatchRequest)
    | OnClaim(claim: ClaimRequest)
    | OnHeartbeat(fence: Fence, leaseSeconds: int, at: Time)
    | OnTransition(fence: Fence, command: Command, reference: Option<Id>, leaseSeconds: int, at: Time)
    | OnFinish(fence: Fence, status: Status, at: Time)
    | OnReconcile(at: Time)
    | OnGet(id: Id, at: Time)

  function TimeOf(e: Event): Time {
    match e
    case OnDispatch(q) => q.now
    case OnClaim(q) => q.now
    case OnHeartbeat(_, _, at) => at
    case OnTransition(_, _, _, _, at) => at
    case OnFinish(_, _, at) => at
    case OnReconcile(at) => at
    case OnGet(_, at) => at
  }

  function Step(t: State, e: Event): State {
    match e
    case OnDispatch(q) => Dispatch(t, q).0
    case OnClaim(q) => Claim(t, q).0
    case OnHeartbeat(f, leaseSeconds, at) => Heartbeat(t, f, leaseSeconds, at).0
    case OnTransition(f, command, reference, leaseSeconds, at) =>
      Transition(t, f, command, reference, leaseSeconds, at).0
    case OnFinish(f, status, at) => Finish(t, f, status, at).0
    case OnReconcile(at) => ReconcileAll(t, at)
    case OnGet(id, at) => ReconcileOne(t, id, at)
  }

  /** What the validators ahead of each mutation and the clock guarantee. */
  predicate Admissible(t: State, e: Event) {
    && t.clock <= TimeOf(e) && 0 < TimeOf(e)
    && match e
       case OnDispatch(q) => 30 <= q.leaseSeconds <= 86400 && 1 <= q.maxAttempts <= 20 && 0 <= q.backoff <= 86400
       case OnClaim(q) => 30 <= q.leaseSeconds <= 86400 && 1 <= q.globalLimit <= 1000 && 1 <= q.projectLimit <= 1000
       case OnHeartbeat(_, leaseSeconds, _) => 30 <= leaseSeconds <= 86400
       case OnTransition(_, _, _, leaseSeconds, _) => 30 <= leaseSeconds <= 86400
       case OnFinish(_, status, _) => status in {Succeeded, Failed, Cancelled, Abandoned}
       case _ => true
  }

  // ---------------------------------------------------------------- what holds between mutations

  /** No write since the dispatch. */
  predicate AsDispatched(r: QueuedRun) {
    && r.status == Queued && r.generation == 1 && r.leaseGeneration == 1 && r.owner == Some(r.actor)
    && r.continuation == r.origin && r.recorded == Record(1, 1) && r.retryAttempt == 0
  }

  /** One run: its lease is whole, its status fits its lease, its retry budget is kept, and while it is
      active its latest execution record is of its generation only if it is still as dispatched. */
  predicate RunOk(r: QueuedRun) {
    && (r.owner.Some? <==> r.expires.Some?)
    && (r.expires.Some? ==> 0 < r.expires.value)
    && (Leased(r.status) ==> r.owner.Some?)
    && (r.status == Blocked ==> r.owner.None?)
    && 0 <= r.retryAttempt <= r.maxAttempts && 0 <= r.backoff
    && (Active5(r.status) ==> r.retryAttempt < r.maxAttempts && r.nextRetryAt.None?)
    && (r.nextRetryAt.Some? ==>
      r.status == Failed && r.owner.None? && 0 < r.retryAttempt < r.maxAttempts && 0 < r.nextRetryAt.value)
    && 1 <= r.recorded.generation <= r.generation
    && (Active5(r.status) && r.recorded.generation == r.generation ==> AsDispatched(r))
  }

  ghost predicate RunsOk(t: State) { forall i :: 0 <= i < |t.runs| ==> RunOk(t.runs[i]) }

  ghost predicate CreationOrdered(t: State) {
    && (forall i :: 0 <= i < |t.runs| ==> t.runs[i].createdAt <= t.clock)
    && (forall i, j :: 0 <= i < j < |t.runs| ==> t.runs[i].createdAt <= t.runs[j].createdAt)
  }

  /** Only the newest run of an item may still accept commands. */
  ghost predicate OneOpenRun(t: State) {
    forall i, j :: 0 <= i < j < |t.runs| && t.runs[i].item == t.runs[j].item ==> Closed(t.runs[i])
  }

  /** Every item mirrors its newest run. */
  ghost predicate ItemsMirror(t: State) {
    forall i :: 0 <= i < |t.runs| ==> MirrorsNewest(t, t.runs[i].item)
  }

  ghost predicate MirrorsNewest(t: State, id: Id) {
    var n := Newest(t.runs, id);
    n >= 0 && id in t.items && t.items[id] == Projected(t.items[id], t.runs[n])
      && t.items[id].project == t.runs[n].project
  }

  ghost predicate Inv(t: State) { RunsOk(t) && CreationOrdered(t) && OneOpenRun(t) && ItemsMirror(t) }

  // ---------------------------------------------------------------- each mutation keeps the invariant

  lemma OpenIsNewest(t: State, i: nat)
    requires OneOpenRun(t) && i < |t.runs| && !Closed(t.runs[i])
    ensures Newest(t.runs, t.runs[i].item) == i
  {
  }

  lemma NewestReads(runs: seq<QueuedRun>, runs': seq<QueuedRun>, id: Id)
    requires |runs| == |runs'| && forall i :: 0 <= i < |runs| ==> runs[i].item == runs'[i].item
    ensures Newest(runs, id) == Newest(runs', id)
  {
  }

  lemma LaterKeepsInv(t: State, now: Time)
    requires Inv(t) && t.clock <= now
    ensures Inv(t.(clock := now))
  {
    hide Newest, Projected, Closed, RunOk;
    assert forall i :: 0 <= i < |t.runs| && MirrorsNewest(t, t.runs[i].item) ==>
             MirrorsNewest(t.(clock := now), t.runs[i].item);
  }

  lemma UpdateKeepsInv(t: State, i: nat, r: QueuedRun)
    requires Inv(t) && i < |t.runs| && !Closed(t.runs[i]) && RunOk(r)
    requires r.item == t.runs[i].item && r.project == t.runs[i].project && r.createdAt == t.runs[i].createdAt
    ensures Inv(WithRun(t, i, r))
  {
    hide Newest, Closed, RunOk;
    var t' := WithRun(t, i, r);
    OpenIsNewest(t, i);
    assert MirrorsNewest(t, r.item);
    forall j | 0 <= j < |t'.runs| ensures MirrorsNewest(t', t'.runs[j].item) {
      var id := t.runs[j].item;
      NewestReads(t.runs, t'.runs, id);
      assert MirrorsNewest(t, id);
    }
  }

  lemma AbandonIsOk(r: QueuedRun)
    requires RunOk(r)
    ensures RunOk(Abandon(r)) && Closed(Abandon(r)) && Abandon(r).createdAt == r.createdAt && Abandon(r).item == r.item
  {
  }

  lemma AbandonKeepsRows(t: State, picked: set<int>)
    requires RunsOk(t) && CreationOrdered(t) && OneOpenRun(t)
    ensures var t' := AbandonWhere(t, picked); RunsOk(t') && CreationOrdered(t') && OneOpenRun(t')
  {
    hide AbandonWhere, Newest, RunOk, Closed, Abandon;
    var t' := AbandonWhere(t, picked);
    forall i | 0 <= i < |t.runs|
      ensures RunOk(t'.runs[i]) && t'.runs[i].createdAt == t.runs[i].createdAt && t'.runs[i].item == t.runs[i].item
      ensures Closed(t.runs[i]) ==> Closed(t'.runs[i])
    {
      AbandonIsOk(t.runs[i]);
    }
  }

  lemma AbandonMirrors(t: State, picked: set<int>, id: Id)
    requires MirrorsNewest(t, id)
    ensures MirrorsNewest(AbandonWhere(t, picked), id)
  {
    hide AbandonWhere, Newest;
    NewestReads(t.runs, AbandonWhere(t, picked).runs, id);
  }

  lemma AbandonKeepsInv(t: State, picked: set<int>)
    requires Inv(t)
    ensures Inv(AbandonWhere(t, picked))
  {
    hide AbandonWhere, MirrorsNewest, RunsOk, CreationOrdered, OneOpenRun;
    AbandonKeepsRows(t, picked);
    var t' := AbandonWhere(t, picked);
    forall j | 0 <= j < |t'.runs| ensures MirrorsNewest(t', t'.runs[j].item) {
      assert MirrorsNewest(t, t.runs[j].item);
      AbandonMirrors(t, picked, t.runs[j].item);
    }
  }

  lemma NextRunIsOk(r: QueuedRun, command: Command, reference: Option<Id>, actor: Id, leaseGeneration: int,
          leaseSeconds: int, now: Time)
    requires RunOk(r) && 0 < now && 0 < leaseSeconds
    ensures var n := NextRun(r, command, reference, actor, leaseGeneration, leaseSeconds, now);
            n.Some? ==>
              RunOk(n.value) && n.value.item == r.item && n.value.project == r.project
                && n.value.createdAt == r.createdAt
  {
    if command == Fail && NextRun(r, command, reference, actor, leaseGeneration, leaseSeconds, now).Some? {
      var attempt := r.retryAttempt + 1;
      assert r.backoff * Max(attempt, 1) >= 0;
    }
  }

  lemma AppendMirrors(t: State, t': State, r: QueuedRun, id: Id)
    requires t'.runs == t.runs + [r] && r.item in t'.items && t'.items == t.items[r.item := t'.items[r.item]]
    requires t'.items[r.item] == Projected(t'.items[r.item], r) && t'.items[r.item].project == r.project
    requires id != r.item ==> MirrorsNewest(t, id)
    ensures MirrorsNewest(t', id)
  {
    hide Newest;
    NewestAppend(t.runs, r, id);
  }

  lemma AppendKeepsInv(t: State, t': State, r: QueuedRun)
    requires Inv(t) && RunOk(r) && r.createdAt == t.clock == t'.clock
    requires forall i :: !OpenFor(t, r.item, i)
    requires t'.runs == t.runs + [r] && r.item in t'.items && t'.items == t.items[r.item := t'.items[r.item]]
    requires t'.items[r.item] == Projected(t'.items[r.item], r) && t'.items[r.item].project == r.project
    ensures Inv(t')
  {
    hide MirrorsNewest, RunOk, Closed;
    assert forall i :: 0 <= i < |t.runs| && t.runs[i].item == r.item ==> !OpenFor(t, r.item, i);
    forall j | 0 <= j < |t'.runs| ensures MirrorsNewest(t', t'.runs[j].item) {
      if j < |t.runs| { assert MirrorsNewest(t, t.runs[j].item); }
      AppendMirrors(t, t', r, t'.runs[j].item);
    }
  }

  lemma DispatchKeepsInv(t: State, q: DispatchRequest)
    requires Inv(t) && Admissible(t, OnDispatch(q))
    ensures Inv(Dispatch(t, q).0)
  {
    hide Inv, OpenFor;
    var (t', outcome) := Dispatch(t, q);
    LaterKeepsInv(t, q.now);
    if outcome.Dispatched? {
      ReadyItemHasNoOpenRun(t.(clock := q.now), q.item);
      AppendKeepsInv(t.(clock := q.now), t', t'.runs[|t.runs|]);
    }
  }

  lemma NewestAppend(runs: seq<QueuedRun>, r: QueuedRun, id: Id)
    ensures Newest(runs + [r], id) == if id == r.item then |runs| else Newest(runs, id)
  {
    assert (runs + [r])[..|runs|] == runs;
  }

  /** The two status probes of a dispatch are implied by the item being ready. */
  lemma ReadyItemHasNoOpenRun(t: State, id: Id)
    requires Inv(t) && id in t.items && t.items[id].status == Ready
    ensures forall i :: !OpenFor(t, id, i)
  {
    hide Newest, RunOk;
    forall i ensures !OpenFor(t, id, i) {
      if OpenFor(t, id, i) {
        assert MirrorsNewest(t, id);
        OpenIsNewest(t, i);
        assert RunOk(t.runs[i]);
        OpenRunHoldsItem(t.items[id], t.runs[i]);
      }
    }
  }

  lemma OpenRunHoldsItem(item: Item, r: QueuedRun)
    requires RunOk(r) && !Closed(r)
    ensures Projected(item, r).status == if r.owner.Some? then Active else ItemBlocked
  {
  }

  lemma ClaimKeepsInv(t: State, q: ClaimRequest)
    requires Inv(t) && Admissible(t, OnClaim(q))
    ensures Inv(Claim(t, q).0)
  {
    hide Inv, AbandonWhere, ExpiredRuns, TooManyExpired, Slots, Choose;
    var (t', outcome) := Claim(t, q);
    LaterKeepsInv(t, q.now);
    var t1 := AbandonWhere(t.(clock := q.now), ExpiredRuns(t.runs, q.now));
    AbandonKeepsInv(t.(clock := q.now), ExpiredRuns(t.runs, q.now));
    if outcome.Claimed? {
      RunIsOk(t1, outcome.id);
      UpdateKeepsInv(t1, outcome.id, ClaimedRun(t1.runs[outcome.id], q));
    }
  }

  lemma RunIsOk(t: State, i: nat)
    requires Inv(t) && i < |t.runs|
    ensures RunOk(t.runs[i])
  {
    hide CreationOrdered, OneOpenRun, ItemsMirror;
  }

  lemma StepKeepsInv(t: State, e: Event)
    requires Inv(t) && Admissible(t, e)
    ensures Inv(Step(t, e))
  {
    hide Inv, Dispatch, Claim, AbandonWhere, ExpiredRuns, TooManyExpired, NextRun;
    LaterKeepsInv(t, TimeOf(e));
    var t0 := t.(clock := TimeOf(e));
    match e
    case OnDispatch(q) => DispatchKeepsInv(t, q);
    case OnClaim(q) => ClaimKeepsInv(t, q);
    case OnHeartbeat(f, leaseSeconds, at) =>
      if Heartbeat(t, f, leaseSeconds, at).1.Applied? {
        RunIsOk(t, f.id);
        UpdateKeepsInv(t0, f.id, Heartbeat(t, f, leaseSeconds, at).1.run);
      }
    case OnTransition(f, command, reference, leaseSeconds, at) =>
      if Transition(t, f, command, reference, leaseSeconds, at).1.Applied? {
        RunIsOk(t, f.id);
        NextRunIsOk(t.runs[f.id], command, reference, f.actor, f.leaseGeneration, leaseSeconds, at);
        UpdateKeepsInv(t0, f.id, Transition(t, f, command, reference, leaseSeconds, at).1.run);
      }
    case OnFinish(f, status, at) =>
      if Finish(t, f, status, at).1.Applied? {
        RunIsOk(t, f.id);
        FinishKeepsItem(t0, f.id, Finish(t, f, status, at).1.run);
        UpdateKeepsInv(t0, f.id, Finish(t, f, status, at).1.run);
      }
    case OnReconcile(at) => AbandonKeepsInv(t0, ExpiredRuns(t.runs, at));
    case OnGet(id, at) => AbandonKeepsInv(t0, {id});
  }

  /** A run that has an owner already shows on its item, so a finish may leave the item alone. */
  lemma FinishKeepsItem(t: State, i: nat, r: QueuedRun)
    requires Inv(t) && i < |t.runs| && !Closed(t.runs[i])
    requires r.item == t.runs[i].item && r.owner == t.runs[i].owner && r.expires == t.runs[i].expires && r.owner.Some?
    ensures WithRun(t, i, r) == t.(runs := t.runs[i := r])
  {
    OpenIsNewest(t, i);
    assert MirrorsNewest(t, r.item);
    assert t.items[r.item := t.items[r.item]] == t.items;
  }

  function RunAll(t: State, es: seq<Event>): State
    decreases |es|
  {
    if es == [] then t else RunAll(Step(t, es[0]), es[1..])
  }

  predicate AdmissibleRun(t: State, es: seq<Event>)
    decreases |es|
  {
    es == [] || (Admissible(t, es[0]) && AdmissibleRun(Step(t, es[0]), es[1..]))
  }

  /** In every reachable state an item has at most one run that may still act, and mirrors its
      newest run. */
  lemma {:induction false} RunKeepsInv(t: State, es: seq<Event>)
    requires Inv(t) && AdmissibleRun(t, es)
    ensures Inv(RunAll(t, es))
    decreases |es|
  {
    hide Inv, Step, Admissible;
    if es != [] {
      StepKeepsInv(t, es[0]);
      RunKeepsInv(Step(t, es[0]), es[1..]);
    }
  }

  // ---------------------------------------------------------------- lease fencing

  /** What separates two states of one run, the second at the same time or later. */
  predicate Later(r: QueuedRun, r': QueuedRun) {
    && r.generation <= r'.generation && r.leaseGeneration <= r'.leaseGeneration && r.retryAttempt <= r'.retryAttempt
    && (r.generation == r'.generation ==> r' == r.(expires := r'.expires))
    && (r.leaseGeneration == r'.leaseGeneration ==> r'.owner == r.owner || r'.owner.None?)
    && (Closed(r) ==> r' == r)
    && r'.project == r.project && r'.item == r.item && r'.maxAttempts == r.maxAttempts && r'.createdAt == r.createdAt
    && r'.runnerType == r.runnerType && r'.profile == r.profile && r'.origin == r.origin
  }

  lemma LaterIsTransitive(a: QueuedRun, b: QueuedRun, c: QueuedRun)
    requires Later(a, b) && Later(b, c)
    ensures Later(a, c)
  {
  }

  /** How one step may change a run: a heartbeat moves a live lease of its owner and nothing else;
      every other write raises the generation. */
  ghost predicate Written(r: QueuedRun, r': QueuedRun, e: Event) {
    || r' == r
    || (r'.generation > r.generation && Later(r, r'))
    || (e.OnHeartbeat? && r' == r.(expires := r'.expires) && !Closed(r)
        && LiveLease(r, e.fence.actor, e.fence.leaseGeneration, e.at) && r.generation == e.fence.generation)
  }

  lemma AbandonedLater(r: QueuedRun)
    requires Leased(r.status)
    ensures Later(r, Abandon(r)) && Abandon(r).generation > r.generation
  {
  }

  lemma NextLater(r: QueuedRun, command: Command, reference: Option<Id>, actor: Id, leaseGeneration: int,
          leaseSeconds: int, now: Time)
    requires !Closed(r)
    ensures var n := NextRun(r, command, reference, actor, leaseGeneration, leaseSeconds, now);
            n.Some? ==> Later(r, n.value) && n.value.generation == r.generation + 1
  {
  }

  lemma ClaimWrites(t: State, q: ClaimRequest, i: nat)
    requires i < |t.runs|
    ensures |Claim(t, q).0.runs| == |t.runs| && Written(t.runs[i], Claim(t, q).0.runs[i], OnClaim(q))
    ensures Later(t.runs[i], Claim(t, q).0.runs[i])
  {
    hide Slots, Choose, TooManyExpired, ItemAllowsClaim, Newest, Eligible, Later, AbandonWhere, Scan, Abandon;
    ClaimedFrom(t, q, i);
    var r, r' := t.runs[i], Claim(t, q).0.runs[i];
    if Leased(r.status) { AbandonedLater(r); }
    if Eligible(r, q) { ClaimedLater(r, q); }
    WrittenFrom(r, r', OnClaim(q));
  }

  /** A claim changes a run only by abandoning it when its lease ran out, or by granting it. */
  lemma ClaimedFrom(t: State, q: ClaimRequest, i: nat)
    requires i < |t.runs|
    ensures |Claim(t, q).0.runs| == |t.runs|
    ensures var r, r' := t.runs[i], Claim(t, q).0.runs[i];
            r' == r || (Leased(r.status) && r' == Abandon(r)) || (Eligible(r, q) && r' == ClaimedRun(r, q))
  {
    hide Slots, Choose, TooManyExpired, ItemAllowsClaim, Newest, AbandonWhere, Scan, InProject;
  }

  lemma ClaimedLater(r: QueuedRun, q: ClaimRequest)
    requires Eligible(r, q)
    ensures Later(r, ClaimedRun(r, q)) && ClaimedRun(r, q).generation > r.generation
  {
  }

  lemma StepWrites(t: State, e: Event, i: nat)
    requires i < |t.runs|
    ensures i < |Step(t, e).runs| && Written(t.runs[i], Step(t, e).runs[i], e) && Later(t.runs[i], Step(t, e).runs[i])
  {
    hide Written, Claim, NextRun, TooManyExpired, Later;
    var r, t' := t.runs[i], Step(t, e);
    match e
    case OnClaim(q) => ClaimWrites(t, q, i);
    case OnTransition(f, command, reference, leaseSeconds, at) =>
      if t'.runs[i] != r { NextLater(r, command, reference, f.actor, f.leaseGeneration, leaseSeconds, at); }
      WrittenFrom(r, t'.runs[i], e);
    case OnFinish(f, status, at) =>
      FinishLater(r, status);
      WrittenFrom(r, t'.runs[i], e);
    case OnHeartbeat(_, _, _) => WrittenFrom(r, t'.runs[i], e);
    case OnDispatch(_) => WrittenFrom(r, t'.runs[i], e);
    case OnReconcile(_) =>
      if t'.runs[i] != r { AbandonedLater(r); }
      WrittenFrom(r, t'.runs[i], e);
    case OnGet(_, _) =>
      if t'.runs[i] != r { AbandonedLater(r); }
      WrittenFrom(r, t'.runs[i], e);
  }

  lemma FinishLater(r: QueuedRun, status: Status)
    ensures Active5(r.status) ==> Later(r, Finished(r, status))
  {
  }

  lemma WrittenFrom(r: QueuedRun, r': QueuedRun, e: Event)
    requires r' == r || (r'.generation > r.generation && Later(r, r'))
      || (e.OnHeartbeat? && r' == r.(expires := r'.expires) && !Closed(r)
          && LiveLease(r, e.fence.actor, e.fence.leaseGeneration, e.at) && r.generation == e.fence.generation)
    ensures Written(r, r', e) && Later(r, r')
  {
  }

  /** Whatever happens, a run only moves forward: its generations never fall, one generation keeps
      one state but for the lease time, one lease generation keeps one owner, and a closed run
      never changes. */
  lemma {:induction false} RunsMoveForward(t: State, es: seq<Event>, i: nat)
    requires i < |t.runs|
    ensures i < |RunAll(t, es).runs| && Later(t.runs[i], RunAll(t, es).runs[i])
    decreases |es|
  {
    hide Step, Later, Written;
    if es != [] {
      StepWrites(t, es[0], i);
      var t1 := Step(t, es[0]);
      RunsMoveForward(t1, es[1..], i);
      LaterIsTransitive(t.runs[i], t1.runs[i], RunAll(t, es).runs[i]);
    } else {
      LaterIsReflexive(t.runs[i]);
    }
  }

  lemma LaterIsReflexive(r: QueuedRun)
    ensures Later(r, r)
  {
  }

  /** One lease generation of a run never has two owners. */
  lemma OneOwnerPerLease(t: State, es: seq<Event>, i: nat)
    requires i < |t.runs|
    ensures i < |RunAll(t, es).runs|
    ensures var r, r' := t.runs[i], RunAll(t, es).runs[i];
            r.leaseGeneration == r'.leaseGeneration && r.owner.Some? && r'.owner.Some? ==> r.owner == r'.owner
    ensures var r, r' := t.runs[i], RunAll(t, es).runs[i];
            r.leaseGeneration == r'.leaseGeneration && r.owner.None? ==> r'.owner.None?
  {
    RunsMoveForward(t, es, i);
  }

  /** Closed runs never change. */
  lemma ClosedRunsAreFrozen(t: State, es: seq<Event>, i: nat)
    requires i < |t.runs| && Closed(t.runs[i])
    ensures i < |RunAll(t, es).runs| && RunAll(t, es).runs[i] == t.runs[i]
  {
    RunsMoveForward(t, es, i);
  }

  // ---------------------------------------------------------------- the retry budget

  /** Did this step accept a `fail` for run i? */
  predicate Fails(t: State, e: Event, i: nat) {
    e.OnTransition? && e.command == Fail && e.fence.id == i
      && Transition(t, e.fence, e.command, e.reference, e.leaseSeconds, e.at).1.Applied?
  }

  function FailCount(t: State, es: seq<Event>, i: nat): nat
    decreases |es|
  {
    if es == [] then 0 else (if Fails(t, es[0], i) then 1 else 0) + FailCount(Step(t, es[0]), es[1..], i)
  }

  lemma StepCountsFail(t: State, e: Event, i: nat)
    requires i < |t.runs|
    ensures i < |Step(t, e).runs|
    ensures Step(t, e).runs[i].retryAttempt == t.runs[i].retryAttempt + (if Fails(t, e, i) then 1 else 0)
  {
    hide Claim, TooManyExpired, Newest, Scan;
    if e.OnClaim? { ClaimedFrom(t, e.claim, i); }
  }

  /** Over any run, a queued run fails no more often than its budget allows. */
  lemma {:induction false} FailuresStayInBudget(t: State, es: seq<Event>, i: nat)
    requires Inv(t) && AdmissibleRun(t, es) && i < |t.runs|
    ensures i < |RunAll(t, es).runs|
    ensures t.runs[i].retryAttempt + FailCount(t, es, i) == RunAll(t, es).runs[i].retryAttempt <= t.runs[i].maxAttempts
    decreases |es|
  {
    hide Inv, Step, Fails, Admissible;
    if es != [] {
      StepKeepsInv(t, es[0]);
      StepCountsFail(t, es[0], i);
      RunsMoveForward(t, [es[0]], i);
      assert RunAll(t, [es[0]]) == Step(t, es[0]) by { assert [es[0]][1..] == []; }
      FailuresStayInBudget(Step(t, es[0]), es[1..], i);
    } else {
      RunIsOk(t, i);
    }
  }

  // ---------------------------------------------------------------- what a claim promises

  lemma {:induction false} FirstClaimableIsFirst(runs: seq<QueuedRun>, rows: seq<nat>, q: ClaimRequest) returns (a: nat)
    requires RowsOf(runs, rows) && FirstClaimable(runs, rows, q) >= 0
    ensures a < |rows| && rows[a] == FirstClaimable(runs, rows, q)
    ensures forall b :: 0 <= b < a ==> !Claimable(runs, rows[b], q)
  {
    if Claimable(runs, rows[0], q) {
      a := 0;
    } else {
      var rest := FirstClaimableIsFirst(runs, rows[1..], q);
      a := rest + 1;
      assert forall b :: 0 < b < a ==> rows[b] == rows[1..][b - 1];
    }
  }

  /** The first claimable row of one pool precedes every other claimable row of that pool, however
      many rows lie beyond the scan. */
  lemma FirstOfPool(runs: seq<QueuedRun>, pool: Query, q: ClaimRequest, j: nat)
    requires var rows := Take(Scan(runs, pool), CANDIDATE_SCAN_LIMIT);
             RowsOf(runs, rows) && FirstClaimable(runs, rows, q) >= 0
    requires j < |runs| && Claimable(runs, j, q) && Matches(runs[j], pool)
    ensures var i := FirstClaimable(runs, Take(Scan(runs, pool), CANDIDATE_SCAN_LIMIT), q);
            i < |runs| && Matches(runs[i], pool) && (i == j || Precedes(runs, pool, i, j))
  {
    hide Claimable, Matches, SortKey, Precedes, Scan, FirstClaimable;
    var all := Scan(runs, pool);
    var rows := Take(all, CANDIDATE_SCAN_LIMIT);
    var a := FirstClaimableIsFirst(runs, rows, q);
    assert rows[a] == all[a];
    assert j in all;
    var b :| 0 <= b < |all| && all[b] == j;
    assert b >= a;
  }

  lemma NoneInPool(runs: seq<QueuedRun>, pool: Query, q: ClaimRequest, j: nat)
    requires |Scan(runs, pool)| <= CANDIDATE_SCAN_LIMIT && FirstClaimable(runs, Scan(runs, pool), q) < 0
    requires j < |runs| && Matches(runs[j], pool)
    ensures !Claimable(runs, j, q)
  {
    hide Claimable, Matches;
  }

  lemma ClaimableIsInAPool(t: State, q: ClaimRequest, j: nat)
    requires Inv(t) && Claimable(t.runs, j, q)
    ensures Matches(t.runs[j], if t.runs[j].status == Failed then Due(q.project, q.now) else Backlog(q.project))
  {
    RunIsOk(t, j);
  }

  /** Scanning at most one hundred rows of each pool still finds the globally first claimable run:
      due retries by retry time, then queued runs by age. When nobody is chosen nobody is claimable. */
  lemma ChoiceIsGloballyFirst(t: State, q: ClaimRequest)
    requires Inv(t) && q.run.None?
    ensures var choice := Choose(t.runs, q);
            && (choice.Chosen? ==> forall j :: Claimable(t.runs, j, q) && j != choice.id ==>
              Before(t.runs, choice.id, j))
            && (choice.Nobody? ==> forall j :: !Claimable(t.runs, j, q))
            && (choice.Truncated? ==> |Scan(t.runs, Due(q.project, q.now))| > CANDIDATE_SCAN_LIMIT
                                      || |Scan(t.runs, Backlog(q.project))| > CANDIDATE_SCAN_LIMIT)
  {
    hide Inv, Claimable, FirstClaimable, SortKey, Matches, Precedes, Before, Scan;
    var choice := Choose(t.runs, q);
    var due, backlog := Due(q.project, q.now), Backlog(q.project);
    forall j: nat | Claimable(t.runs, j, q) && (choice.Nobody? || (choice.Chosen? && j != choice.id))
      ensures choice.Chosen? && j < |t.runs| && Before(t.runs, choice.id, j)
    {
      ClaimableIsInAPool(t, q, j);
      ClaimableRow(t.runs, j, q);
      if t.runs[j].status == Failed {
        if FirstClaimable(t.runs, Take(Scan(t.runs, due), CANDIDATE_SCAN_LIMIT), q) >= 0 {
          FirstOfPool(t.runs, due, q, j);
          DueFirst(t.runs, q, choice.id, j);
        } else {
          NoneInPool(t.runs, due, q, j);
        }
      } else if FirstClaimable(t.runs, Take(Scan(t.runs, due), CANDIDATE_SCAN_LIMIT), q) >= 0 {
        ScannedMatches(t.runs, due, choice.id);
        RetryFirst(t.runs, q, choice.id, j);
      } else {
        if FirstClaimable(t.runs, Take(Scan(t.runs, backlog), CANDIDATE_SCAN_LIMIT), q) >= 0 {
          FirstOfPool(t.runs, backlog, q, j);
          OlderFirst(t, q, choice.id, j);
        } else {
          NoneInPool(t.runs, backlog, q, j);
        }
      }
    }
  }

  lemma ClaimableRow(runs: seq<QueuedRun>, j: nat, q: ClaimRequest)
    requires Claimable(runs, j, q)
    ensures j < |runs| && (runs[j].status == Failed || runs[j].status == Queued)
    ensures runs[j].status == Failed ==> runs[j].nextRetryAt.Some?
  {
  }

  lemma ScannedMatches(runs: seq<QueuedRun>, pool: Query, i: nat)
    requires i in Scan(runs, pool)
    ensures i < |runs| && Matches(runs[i], pool)
  {
    hide Scan, Matches, InIndexOrder;
    var rows := Scan(runs, pool);
    var a :| 0 <= a < |rows| && rows[a] == i;
  }

  lemma RetryFirst(runs: seq<QueuedRun>, q: ClaimRequest, i: nat, j: nat)
    requires i < |runs| && Matches(runs[i], Due(q.project, q.now)) && j < |runs| && runs[j].status == Queued
    ensures Before(runs, i, j)
  {
  }

  lemma DueFirst(runs: seq<QueuedRun>, q: ClaimRequest, i: nat, j: nat)
    requires i < |runs| && j < |runs| && Matches(runs[i], Due(q.project, q.now))
             && Matches(runs[j], Due(q.project, q.now))
    requires Precedes(runs, Due(q.project, q.now), i, j)
    ensures Before(runs, i, j)
  {
  }

  lemma OlderFirst(t: State, q: ClaimRequest, i: nat, j: nat)
    requires Inv(t) && i < |t.runs| && j < |t.runs|
    requires Matches(t.runs[i], Backlog(q.project)) && Matches(t.runs[j], Backlog(q.project))
    requires Precedes(t.runs, Backlog(q.project), i, j)
    ensures Before(t.runs, i, j)
  {
  }

  lemma {:induction false} SlotsAfterUpdate(runs: seq<QueuedRun>, now: Time, i: nat, r: QueuedRun, project: Option<Id>)
    requires i < |runs| && r.project == runs[i].project && !HoldsSlot(runs[i], now) && HoldsSlot(r, now)
    ensures Slots(runs[i := r], now, project) == Slots(runs, now, project) + (if InProject(r, project) then 1 else 0)
  {
    var n := |runs| - 1;
    if i < n {
      SlotsAfterUpdate(runs[..n], now, i, r, project);
      assert runs[i := r][..n] == runs[..n][i := r];
    } else {
      assert runs[i := r][..n] == runs[..n];
    }
  }

  /** After a claim, the slots held stay within both limits. */
  lemma ClaimKeepsLimits(t: State, q: ClaimRequest)
    requires Inv(t) && Admissible(t, OnClaim(q)) && Claim(t, q).1.Claimed?
    ensures var t' := Claim(t, q).0;
            var i := Claim(t, q).1.id;
            && i < |t'.runs| && HoldsSlot(t'.runs[i], q.now)
            && Slots(t'.runs, q.now, None) <= q.globalLimit
            && Slots(t'.runs, q.now, Some(t'.runs[i].project)) <= q.projectLimit
  {
    hide Inv, Slots, TooManyExpired, AbandonWhere, ExpiredRuns, Choose;
    var t1 := AbandonWhere(t.(clock := q.now), ExpiredRuns(t.runs, q.now));
    var i := Claim(t, q).1.id;
    SlotsAfterUpdate(t1.runs, q.now, i, ClaimedRun(t1.runs[i], q), None);
    SlotsAfterUpdate(t1.runs, q.now, i, ClaimedRun(t1.runs[i], q), Some(t1.runs[i].project));
  }

  const SAMPLE_RUN := QueuedRun(5, 0, 3, 4, Profile(6, None), None, None, Record(1, 1), Queued, 1, 1, Some(3),
    Some(900020), 0, 1, 0, None, 20)

  /** One item, and its run dispatched by actor 3. */
  lemma SampleDispatched() returns (t: State)
    ensures Inv(t) && t == State([SAMPLE_RUN], map[0 := Item(5, Active, Some(3), Some(900020), 1)], 20)
  {
    var empty := State([], map[0 := Item(5, Ready, None, None, 0)], 0);
    var q := DispatchRequest(20, 0, 0, 3, 4, Profile(6, None), None, 900, 1, 0);
    DispatchKeepsInv(empty, q);
    t := Dispatch(empty, q).0;
  }

  lemma SampleIsEarly(t: State, now: Time)
    requires t.runs == [SAMPLE_RUN] && now < 900020
    ensures !TooManyExpired(t.runs, now) && AbandonWhere(t, ExpiredRuns(t.runs, now)) == t
    ensures forall project :: Slots(t.runs, now, project) == 0
  {
    hide Scan, Newest;
    assert t.runs[..0] == [];
    forall s | 0 <= s < |EXPIRING_STATUSES| ensures |Scan(t.runs, Expired(EXPIRING_STATUSES[s], now))| == 0 {
      ScanCounts(t.runs, Expired(EXPIRING_STATUSES[s], now), None);
    }
    assert ExpiredRuns(t.runs, now) == {};
  }

  /** A claim of it by actor 4 is granted. */
  lemma SampleClaim() returns (t: State, q: ClaimRequest)
    ensures Inv(t) && Admissible(t, OnClaim(q)) && Claim(t, q).1 == Claimed(0)
  {
    hide Inv, TooManyExpired, AbandonWhere, ExpiredRuns, Slots, Scan;
    t := SampleDispatched();
    q := ClaimRequest(30, 4, 4, Profile(6, None), None, Some(0), 900, 1, 1);
    SampleIsEarly(t.(clock := 30), 30);
  }

  /** What a claim finds when it looks at the item of an eligible run: the item keeps out exactly those
      who claim a queued run whose lease was taken over by another actor than the run's own. */
  lemma ClaimSeesItem(t: State, i: nat, q: ClaimRequest)
    requires Inv(t) && i < |t.runs| && Eligible(t.runs[i], q)
    ensures t.runs[i].item in t.items
    ensures ItemAllowsClaim(t.items[t.runs[i].item], t.runs[i], q) <==> !HeldByAnother(t.runs[i], q)
  {
    hide Newest;
    OpenIsNewest(t, i);
    assert MirrorsNewest(t, t.runs[i].item) && RunOk(t.runs[i]);
  }

  predicate HeldByAnother(r: QueuedRun, q: ClaimRequest) {
    r.status == Queued && r.owner != Some(q.actor) && r.owner != Some(r.actor)
  }

  /** Queued under a lease that is not the run's own actor's. */
  predicate TakenOver(r: QueuedRun) { r.status == Queued && r.owner != Some(r.actor) }

  /** Only a retry by another actor than the run's own takes a queued run over. */
  lemma OnlyRetryTakesOver(t: State, e: Event, i: nat)
    requires Admissible(t, e) && i < |Step(t, e).runs| && TakenOver(Step(t, e).runs[i])
    ensures || (i < |t.runs| && TakenOver(t.runs[i]))
            || (e.OnTransition? && e.command == Retry && e.fence.id == i < |t.runs| && e.fence.actor != t.runs[i].actor)
  {
    hide Claim, TooManyExpired, Newest, Scan;
    if e.OnClaim? {
      ClaimKeepsLength(t, e.claim);
      ClaimedFrom(t, e.claim, i);
    }
  }

  /** A claim throws over its item exactly when reconciliation and capacity pass and the chosen run is
      queued under a lease that is neither the claiming actor's nor the run's own actor's. */
  lemma ClaimHeldExactly(t: State, q: ClaimRequest)
    requires Inv(t) && Admissible(t, OnClaim(q))
    ensures var t1 := AbandonWhere(t.(clock := q.now), ExpiredRuns(t.runs, q.now));
            Claim(t, q).1 == ItemHeld <==>
              && !TooManyExpired(t.runs, q.now) && Slots(t1.runs, q.now, None) < q.globalLimit
              && Choose(t1.runs, q).Chosen? && HeldByAnother(t1.runs[Choose(t1.runs, q).id], q)
  {
    hide Inv, AbandonWhere, ExpiredRuns, TooManyExpired, Slots, Choose, ItemAllowsClaim, Eligible;
    LaterKeepsInv(t, q.now);
    AbandonKeepsInv(t.(clock := q.now), ExpiredRuns(t.runs, q.now));
    var t1 := AbandonWhere(t.(clock := q.now), ExpiredRuns(t.runs, q.now));
    if Choose(t1.runs, q).Chosen? { ClaimSeesItem(t1, Choose(t1.runs, q).id, q); }
  }

  lemma HeldIsNotClaimed(t: State, q: ClaimRequest, i: nat)
    requires Inv(t) && Admissible(t, OnClaim(q)) && i < |t.runs| && HeldByAnother(t.runs[i], q)
    ensures Claim(t, q).1 != Claimed(i)
  {
    hide Inv, TooManyExpired, Slots, Choose, ItemAllowsClaim, Eligible;
    LaterKeepsInv(t, q.now);
    AbandonKeepsInv(t.(clock := q.now), ExpiredRuns(t.runs, q.now));
    var t1 := AbandonWhere(t.(clock := q.now), ExpiredRuns(t.runs, q.now));
    if Claim(t, q).1 == Claimed(i) {
      ClaimSeesItem(t1, i, q);
      AbandonedIsIneligible(t.runs[i], q);
    }
  }

  lemma AbandonedIsIneligible(r: QueuedRun, q: ClaimRequest)
    ensures !Eligible(Abandon(r), q)
  {
  }

  /** A retry by another actor than the run's own reserves the run: whatever happens afterwards, as long
      as the run keeps the generation the retry gave it, no other actor is granted it. */
  lemma RetryReservesRun(t: State, f: Fence, reference: Option<Id>, leaseSeconds: int, at: Time, es: seq<Event>,
          q: ClaimRequest)
    requires Inv(t) && Admissible(t, OnTransition(f, Retry, reference, leaseSeconds, at))
    requires Transition(t, f, Retry, reference, leaseSeconds, at).1.Applied? && t.runs[f.id].actor != f.actor
             && q.actor != f.actor
    requires var t1 := Transition(t, f, Retry, reference, leaseSeconds, at).0;
             AdmissibleRun(t1, es) && Admissible(RunAll(t1, es), OnClaim(q))
    ensures var t' := RunAll(Transition(t, f, Retry, reference, leaseSeconds, at).0, es);
            f.id < |t'.runs| && (t'.runs[f.id].generation == t.runs[f.id].generation + 1 ==>
              Claim(t', q).1 != Claimed(f.id))
  {
    hide Inv, Step, Admissible, Claim;
    var e := OnTransition(f, Retry, reference, leaseSeconds, at);
    StepKeepsInv(t, e);
    var t1 := Transition(t, f, Retry, reference, leaseSeconds, at).0;
    assert t1 == Step(t, e) by { StepOfTransition(t, f, Retry, reference, leaseSeconds, at); }
    RunKeepsInv(t1, es);
    RunsMoveForward(t1, es, f.id);
    var t' := RunAll(t1, es);
    if t'.runs[f.id].generation == t1.runs[f.id].generation {
      assert HeldByAnother(t'.runs[f.id], q);
      HeldIsNotClaimed(t', q, f.id);
    }
  }

  lemma StepOfTransition(t: State, f: Fence, command: Command, reference: Option<Id>, leaseSeconds: int, at: Time)
    ensures Step(t, OnTransition(f, command, reference, leaseSeconds, at)) ==
              Transition(t, f, command, reference, leaseSeconds, at).0
  {
  }

  // ---------------------------------------------------------------- item and run agree

  /** What the newest run's status alone says about its item. */
  function ByStatus(item: Item, r: QueuedRun): Item {
    if Leased(r.status) then item.(status := Active, holder := r.owner, expires := r.expires)
    else
      item.(status := if r.status == Succeeded then Done
        else if r.status == Blocked || r.status == Failed then ItemBlocked else Ready,
            holder := None, expires := None)
  }

  /** Ended while it still has its lease: no other writer than a finish leaves such a run. */
  predicate FinishedUnderLease(r: QueuedRun) { !Leased(r.status) && r.owner.Some? }

  /** An item agrees with its newest run's status exactly when that run is not of that shape. */
  lemma ItemAgreesByShape(t: State, id: Id)
    requires Inv(t) && Newest(t.runs, id) >= 0
    ensures id in t.items
    ensures t.items[id] == ByStatus(t.items[id], t.runs[Newest(t.runs, id)]) <==>
              !FinishedUnderLease(t.runs[Newest(t.runs, id)])
  {
    hide Newest;
    var r := t.runs[Newest(t.runs, id)];
    assert MirrorsNewest(t, r.item);
    assert RunOk(r);
  }

  /** Did this step accept a finish of run i? */
  predicate Finishes(t: State, e: Event, i: nat) {
    e.OnFinish? && e.fence.id == i && Finish(t, e.fence, e.status, e.at).1.Applied?
  }

  /** Did any step of this history? */
  predicate FinishAccepted(t: State, es: seq<Event>, i: nat)
    decreases |es|
  {
    es != [] && (Finishes(t, es[0], i) || FinishAccepted(Step(t, es[0]), es[1..], i))
  }

  lemma NextRunUnfinished(r: QueuedRun, command: Command, reference: Option<Id>, actor: Id, leaseGeneration: int,
          leaseSeconds: int, now: Time)
    requires RunOk(r) && !Closed(r)
    ensures var n := NextRun(r, command, reference, actor, leaseGeneration, leaseSeconds, now);
            n.Some? ==> !FinishedUnderLease(n.value)
    ensures !FinishedUnderLease(r)
  {
  }

  lemma FinishedIsFinished(t: State, f: Fence, status: Status, now: Time)
    requires Inv(t) && Admissible(t, OnFinish(f, status, now)) && Finish(t, f, status, now).1.Applied?
    ensures FinishedUnderLease(Finish(t, f, status, now).1.run) && !FinishedUnderLease(t.runs[f.id])
  {
    RunIsOk(t, f.id);
  }

  /** One step: a run is ended under its lease by a finish, or was so already. */
  lemma StepFinishes(t: State, e: Event, i: nat)
    requires Inv(t) && Admissible(t, e) && i < |Step(t, e).runs|
    ensures FinishedUnderLease(Step(t, e).runs[i]) <==>
              Finishes(t, e, i) || (i < |t.runs| && FinishedUnderLease(t.runs[i]))
  {
    hide Inv, Claim, NextRun, TooManyExpired, Newest, Scan, FinishedUnderLease, RunOk, Closed, Admissible;
    hide ClaimedRun, Abandon, Eligible;
    if i < |t.runs| {
      RunIsOk(t, i);
      StepWrites(t, e, i);
      var r := t.runs[i];
      UnfinishedShapes(r);
      match e
      case OnClaim(q) =>
        ClaimedFrom(t, q, i);
        if Eligible(r, q) { EligibleUnfinished(r, q); }
      case OnTransition(f, command, reference, leaseSeconds, at) =>
        if f.id == i && !Closed(r) {
          NextRunUnfinished(r, command, reference, f.actor, f.leaseGeneration, leaseSeconds, at);
        }
      case OnHeartbeat(f, leaseSeconds, at) => HeartbeatUnfinished(r, Some(at + leaseSeconds * 1000));
      case OnFinish(f, status, at) => if Finishes(t, e, i) { FinishedIsFinished(t, f, status, at); }
      case _ =>
    } else {
      DispatchedUnfinished(t, e);
    }
  }

  lemma UnfinishedShapes(r: QueuedRun)
    ensures Leased(r.status) ==> !FinishedUnderLease(r)
    ensures !FinishedUnderLease(Abandon(r))
  {
  }

  lemma EligibleUnfinished(r: QueuedRun, q: ClaimRequest)
    requires RunOk(r) && Eligible(r, q)
    ensures !FinishedUnderLease(r) && !FinishedUnderLease(ClaimedRun(r, q))
  {
  }

  lemma HeartbeatUnfinished(r: QueuedRun, expires: Option<Time>)
    ensures HoldsCapacity(r.status) ==> !FinishedUnderLease(r) && !FinishedUnderLease(r.(expires := expires))
  {
  }

  lemma DispatchedUnfinished(t: State, e: Event)
    ensures forall i :: |t.runs| <= i < |Step(t, e).runs| ==>
              !FinishedUnderLease(Step(t, e).runs[i]) && !Finishes(t, e, i)
  {
    hide Claim, NextRun, TooManyExpired, Newest, Scan;
    if e.OnClaim? { ClaimKeepsLength(t, e.claim); }
  }

  lemma ClaimKeepsLength(t: State, q: ClaimRequest)
    ensures |Claim(t, q).0.runs| == |t.runs|
  {
    hide Slots, Choose, TooManyExpired, ItemAllowsClaim, Newest, Scan;
  }

  /** Over any history, a run is ended under its lease exactly when some step accepted a finish of it. */
  lemma {:induction false} FinishedIffFinish(t: State, es: seq<Event>, i: nat)
    requires Inv(t) && AdmissibleRun(t, es) && i < |RunAll(t, es).runs|
    ensures FinishedUnderLease(RunAll(t, es).runs[i]) <==>
              FinishAccepted(t, es, i) || (i < |t.runs| && FinishedUnderLease(t.runs[i]))
    decreases |es|
  {
    hide Inv, Step, Admissible, FinishedUnderLease, Finishes;
    if es != [] {
      StepKeepsInv(t, es[0]);
      FinishedIffFinish(Step(t, es[0]), es[1..], i);
      if i < |Step(t, es[0]).runs| {
        StepFinishes(t, es[0], i);
      } else {
        NoRunsFinishedBefore(t, es[0], i);
      }
    }
  }

  lemma NoRunsFinishedBefore(t: State, e: Event, i: nat)
    requires i >= |Step(t, e).runs|
    ensures i >= |t.runs| && !Finishes(t, e, i)
  {
    hide Step;
    if i < |t.runs| { StepWrites(t, e, i); }
  }

  /** The item is a function of its newest run, finish excluded: over any history that starts without
      runs ended under their lease, an item shows what its newest run's status stands for exactly when
      no step accepted a finish of that run. */
  lemma ItemAgreesUnlessFinished(t: State, es: seq<Event>, id: Id)
    requires Inv(t) && AdmissibleRun(t, es) && forall i :: 0 <= i < |t.runs| ==> !FinishedUnderLease(t.runs[i])
    requires Newest(RunAll(t, es).runs, id) >= 0
    ensures var t' := RunAll(t, es);
            var n := Newest(t'.runs, id);
            && id in t'.items
            && (t'.items[id] == ByStatus(t'.items[id], t'.runs[n]) <==> !FinishAccepted(t, es, n))
  {
    hide Inv, Newest, FinishedUnderLease, ByStatus, FinishAccepted, RunAll;
    RunKeepsInv(t, es);
    FinishedIffFinish(t, es, Newest(RunAll(t, es).runs, id));
    ItemAgreesByShape(RunAll(t, es), id);
  }

  /** Every accepted finish leaves its item held by the finishing actor. */
  lemma FinishLeavesItemHeld(t: State, f: Fence, status: Status, now: Time)
    requires Inv(t) && Admissible(t, OnFinish(f, status, now)) && Finish(t, f, status, now).1.Applied?
    ensures var t' := Finish(t, f, status, now).0;
            && FinishedUnderLease(t'.runs[f.id]) && t'.runs[f.id].item in t'.items
            && t'.items[t'.runs[f.id].item].status == Active && t'.items[t'.runs[f.id].item].holder == Some(f.actor)
  {
    hide Newest;
    OpenIsNewest(t, f.id);
    assert MirrorsNewest(t, t.runs[f.id].item);
  }

  /** In every reachable state a finish is accepted exactly for a run with a reference that nothing has
      written since its dispatch: a claim or a transition leaves the execution history behind. */
  lemma FinishOnlyAsDispatched(t: State, f: Fence, status: Status, now: Time)
    requires Inv(t) && Admissible(t, OnFinish(f, status, now)) && f.id < |t.runs|
    ensures Finish(t, f, status, now).1.Applied? <==>
              && AsDispatched(t.runs[f.id]) && t.runs[f.id].origin.Some?
              && f == Fence(f.id, t.runs[f.id].actor, 1, 1)
  {
    RunIsOk(t, f.id);
  }

  // ---------------------------------------------------------------- references

  /** Did this step accept a transition of run i that carries a reference? */
  predicate Carries(t: State, e: Event, i: nat) {
    && e.OnTransition? && e.fence.id == i && e.reference.Some?
    && Transition(t, e.fence, e.command, e.reference, e.leaseSeconds, e.at).1.Applied?
  }

  /** Accepted transitions that carry a reference, and nothing else, replace the reference of a run. */
  lemma StepReferences(t: State, e: Event, i: nat)
    requires i < |t.runs|
    ensures i < |Step(t, e).runs|
    ensures Step(t, e).runs[i].continuation == if Carries(t, e, i) then e.reference else t.runs[i].continuation
    ensures Step(t, e).runs[i].origin == t.runs[i].origin && Step(t, e).runs[i].item == t.runs[i].item
  {
    hide Claim, TooManyExpired, Newest, Scan;
    if e.OnClaim? { ClaimedFrom(t, e.claim, i); }
  }

  /** At most one run of an item may still act. */
  lemma OneOpenRunPerItem(t: State, id: Id, i: int, j: int)
    requires Inv(t) && OpenFor(t, id, i) && OpenFor(t, id, j)
    ensures i == j && i == Newest(t.runs, id)
  {
    OpenIsNewest(t, i);
    OpenIsNewest(t, j);
  }
}
