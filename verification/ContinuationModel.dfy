/** Continuations: proposals of follow-up work, moved by commands, edits and expiry, and consumed by a
    supervisor that queues a run for them on the scheduler.

    A continuation's ID is the number of its row. Texts other than the instruction, and the legacy run
    table, are not modelled. A mutation that throws leaves the tables as they were. */
module ContinuationModel {
  import opened Base
  import Tables = RunnerTables
  import R = RunnerModel

  datatype Status = Proposed | Approved | Rejected | Deferred | Consumed | Cancelled | Superseded | ExpiredStatus

  datatype Command = Approve | Reject | Defer | Consume | Cancel | Supersede

  datatype ApprovalMode = Automatic | Notify | Human

  datatype Action =
    | CreateItem(project: Id)
    | ResumeItem(item: Id)
    | DispatchItem(item: Id, profile: Option<Id>)
    | RequestDecision(decision: Id)

  /** What a consumption refers to: references a client sends, or the run a supervisor queued. */
  datatype Consumption =
    | References(item: Option<Id>, run: Option<Id>, decision: Option<Id>, conversation: Option<Id>)
    | QueuedFor(target: Id, queued: nat)

  datatype Continuation = Continuation(
    source: Id, instruction: Id, action: Action, approval: ApprovalMode, forSupervisor: bool,
    status: Status, generation: int, expiresAt: Option<Time>, result: Option<Consumption>, createdAt: Time)

  datatype Request =
    | Resolve(id: Id, actor: Id, command: Command, expectedGeneration: int, note: Option<Id>,
      result: Option<Consumption>)
    | Edit(id: Id, actor: Id, expectedGeneration: int, instruction: Id, note: Option<Id>)

  datatype QueueRequest = QueueRequest(
    id: Id, actor: Id, supervisor: Id, expectedGeneration: int, runnerType: Id, profile: Tables.Profile,
    leaseSeconds: int, maxAttempts: int, backoff: int, envelope: Id, mode: ApprovalMode)

  /** envelope: the text of the default execution envelope for a continuation and a runner profile. */
  datatype PolicyRequest = PolicyRequest(
    supervisor: Id, runnerType: Id, profile: Tables.Profile, limit: nat, leaseSeconds: int, maxAttempts: int,
    backoff: int, envelope: (Id, Id) -> Id)

  datatype Stored = Stored(request: Request, result: Continuation)

  datatype QueueStored = QueueStored(request: QueueRequest, result: QueueResult)

  datatype QueueResult = QueueResult(id: Id, item: Id, run: nat)

  datatype State = State(
    rows: seq<Continuation>, runner: R.State, commands: map<Id, Stored>, queued: map<Id, QueueStored>)

  datatype Outcome = Accepted(continuation: Continuation) | Replayed(continuation: Continuation) | Refused

  datatype QueueOutcome = Dispatched(result: QueueResult) | QueueReplayed(result: QueueResult) | QueueRefused

  // ---------------------------------------------------------------- one continuation

  predicate LiveStatus(s: Status) { s == Proposed || s == Deferred || s == Approved }

  predicate Terminal(s: Status) { !LiveStatus(s) }

  function Transition(command: Command, s: Status): Option<Status> {
    match command
    case Approve => if s == Proposed || s == Deferred then Some(Approved) else None
    case Reject => if s == Proposed || s == Deferred then Some(Rejected) else None
    case Defer => if s == Proposed then Some(Deferred) else None
    case Consume => if s == Approved then Some(Consumed) else None
    case Cancel => if LiveStatus(s) then Some(Cancelled) else None
    case Supersede => if LiveStatus(s) then Some(Superseded) else None
  }

  predicate IsExpired(c: Continuation, now: Time) {
    LiveStatus(c.status) && c.expiresAt.Some? && c.expiresAt.value <= now
  }

  function ExpireIfNeeded(c: Continuation, now: Time): Continuation {
    if IsExpired(c, now) then c.(status := ExpiredStatus, generation := c.generation + 1) else c
  }

  /** Does a client's result name what the action demands? */
  predicate FitsAction(result: Consumption, action: Action) {
    && result.References?
    && (result.item.Some? || result.run.Some? || result.decision.Some? || result.conversation.Some?)
    && match action
       case CreateItem(_) => result.item.Some?
       case ResumeItem(item) =>
         (result.item.Some? || result.run.Some? || result.conversation.Some?)
           && (result.item.Some? ==> result.item.value == item)
       case DispatchItem(_, _) => result.run.Some?
       case RequestDecision(_) => result.decision.Some? || result.item.Some?
  }

  // ---------------------------------------------------------------- commands and edits

  /** The continuation a command leads to, or None when it is refused. */
  function Resolved(c: Continuation, q: Request, now: Time): Option<Continuation>
    requires q.Resolve?
  {
    var next := Transition(q.command, c.status);
    if IsExpired(c, now) || c.generation != q.expectedGeneration || next.None? then None
    else if q.command == Consume && (q.result.None? || !FitsAction(q.result.value, c.action)) then None
    else if q.command != Consume && q.result.Some? then None
    else Some(c.(status := next.value, generation := c.generation + 1, result := q.result))
  }

  function Edited(c: Continuation, q: Request, now: Time): Option<Continuation>
    requires q.Edit?
  {
    if c.generation != q.expectedGeneration || (c.status != Proposed && c.status != Deferred)
       || (c.expiresAt.Some? && c.expiresAt.value <= now)
    then None
    else Some(c.(instruction := q.instruction, generation := c.generation + 1))
  }

  function Apply(c: Continuation, q: Request, now: Time): Option<Continuation> {
    if q.Resolve? then Resolved(c, q, now) else Edited(c, q, now)
  }

  function WithClock(t: State, now: Time): State { t.(runner := t.runner.(clock := now)) }

  /** A command or edit, executed once for each idempotency key. */
  function Perform(t: State, q: Request, key: Option<Id>, now: Time): (State, Outcome) {
    var t0 := WithClock(t, now);
    if key.Some? && key.value in t.commands then
      (t0, if t.commands[key.value].request == q then Replayed(t.commands[key.value].result) else Refused)
    else if q.id >= |t.rows| then (t0, Refused)
    else
      var next := Apply(t.rows[q.id], q, now);
      if next.None? then (t0, Refused)
      else
        (t0.(rows := t.rows[q.id := next.value],
             commands := if key.Some? then t.commands[key.value := Stored(q, next.value)] else t.commands),
         Accepted(next.value))
  }

  function Propose(t: State, c: Continuation, now: Time): State {
    if c.status == Proposed && c.generation == 1 && c.result.None? && c.createdAt == now && c.source in t.runner.items
    then WithClock(t, now).(rows := t.rows + [c]) else WithClock(t, now)
  }

  function Expire(t: State, id: Id, now: Time): State {
    if id < |t.rows| then WithClock(t, now).(rows := t.rows[id := ExpireIfNeeded(t.rows[id], now)])
    else WithClock(t, now)
  }

  // ---------------------------------------------------------------- the supervisor

  predicate ItemAccepts(item: R.Item, supervisor: Id, now: Time) {
    && item.status == R.Ready
    && !(item.holder.Some? && item.expires.Some? && item.expires.value > now && item.holder.value != supervisor)
  }

  predicate ModeFits(c: Continuation, mode: ApprovalMode) {
    && (c.forSupervisor || mode == Human)
    && (mode == Automatic ==> c.approval == Automatic)
    && (mode == Notify ==> c.approval == Notify)
  }

  /** Everything the supervisor checks before it writes. */
  predicate Queueable(t: State, q: QueueRequest, now: Time) {
    && q.id < |t.rows|
    && var c := t.rows[q.id];
    && !IsExpired(c, now) && c.generation == q.expectedGeneration && ModeFits(c, q.mode) && LiveStatus(c.status)
    && !c.action.RequestDecision? && c.source in t.runner.items
    && (!c.action.CreateItem? ==>
      c.action.item in t.runner.items && ItemAccepts(t.runner.items[c.action.item], q.supervisor, now))
  }

  function TargetOf(action: Action, newItem: Id): Id
    requires !action.RequestDecision?
  {
    if action.CreateItem? then newItem else action.item
  }

  function WithTarget(runner: R.State, action: Action, newItem: Id): R.State {
    if action.CreateItem? then runner.(items := runner.items[newItem := R.Item(action.project, R.Ready, None, None, 0)])
    else runner
  }

  function ProfileFor(action: Action, profile: Tables.Profile): Tables.Profile {
    if action.DispatchItem? && action.profile.Some? && action.profile.value != profile.id then
      Tables.Profile(action.profile.value, None)
    else profile
  }

  function DispatchFor(c: Continuation, q: QueueRequest, target: Id, claimGeneration: int,
          now: Time): R.DispatchRequest {
    R.DispatchRequest(now, target, claimGeneration, q.supervisor, q.runnerType, ProfileFor(c.action, q.profile),
                      Some(q.id), q.leaseSeconds, q.maxAttempts, q.backoff)
  }

  function ConsumedBy(c: Continuation, target: Id, run: nat): Continuation {
    c.(status := Consumed, generation := c.generation + (if c.status == Approved then 1 else 2),
      result := Some(QueuedFor(target, run)))
  }

  /** Queueing a run for a continuation: approve it if need be, create its item if need be, dispatch,
      and consume it; all of that, or nothing. */
  function Queue(t: State, q: QueueRequest, key: Option<Id>, newItem: Id, now: Time): (State, QueueOutcome) {
    var t0 := WithClock(t, now);
    if key.Some? && key.value in t.queued then
      (t0, if t.queued[key.value].request == q then QueueReplayed(t.queued[key.value].result) else QueueRefused)
    else if !Queueable(t, q, now) then (t0, QueueRefused)
    else
      var c := t.rows[q.id];
      var target := TargetOf(c.action, newItem);
      var runner := WithTarget(t.runner, c.action, newItem);
      var run := |t.runner.runs|;
      var result := QueueResult(q.id, target, run);
      (State(t.rows[q.id := ConsumedBy(c, target, run)],
             R.Dispatch(runner, DispatchFor(c, q, target, runner.items[target].claimGeneration, now)).0,
             t.commands,
             if key.Some? then t.queued[key.value := QueueStored(q, result)] else t.queued),
       Dispatched(result))
  }

  // ---------------------------------------------------------------- the policy

  /** Infinity for no expiry; then by age, then by ID. */
  predicate PolicyBefore(s: seq<Continuation>, i: nat, j: nat)
    requires i < |s| && j < |s|
  {
    var a, b := s[i].expiresAt, s[j].expiresAt;
    if a == b then s[i].createdAt < s[j].createdAt || (s[i].createdAt == s[j].createdAt && i < j)
    else b.None? || (a.Some? && a.value < b.value)
  }

  predicate IsCandidate(c: Continuation, now: Time) {
    c.forSupervisor && (c.status == Proposed || c.status == Deferred) && c.approval != Human && !IsExpired(c, now)
  }

  ghost predicate RowsOf(s: seq<Continuation>, ids: seq<nat>) { forall a :: 0 <= a < |ids| ==> ids[a] < |s| }

  ghost predicate InPolicyOrder(s: seq<Continuation>, ids: seq<nat>)
    requires RowsOf(s, ids)
  {
    forall a, b :: 0 <= a < b < |ids| ==> PolicyBefore(s, ids[a], ids[b])
  }

  function InsertByPolicy(s: seq<Continuation>, ids: seq<nat>, n: nat): (r: seq<nat>)
    requires n < |s| && RowsOf(s, ids) && InPolicyOrder(s, ids) && n !in ids
    ensures RowsOf(s, r) && InPolicyOrder(s, r)
    ensures forall i :: i in r <==> i in ids || i == n
  {
    if ids == [] || PolicyBefore(s, ids[|ids| - 1], n) then
      PolicyAfterAll(s, ids, n);
      ids + [n]
    else
      var last := ids[|ids| - 1];
      var front := InsertByPolicy(s, ids[..|ids| - 1], n);
      assert forall i :: i in ids ==> i in ids[..|ids| - 1] || i == last;
      assert last in ids && PolicyBefore(s, n, last);
      FrontBeforeLast(s, ids, n, front);
      front + [last]
  }

  lemma FrontBeforeLast(s: seq<Continuation>, ids: seq<nat>, n: nat, front: seq<nat>)
    requires n < |s| && RowsOf(s, ids) && InPolicyOrder(s, ids) && RowsOf(s, front) && ids != []
    requires PolicyBefore(s, n, ids[|ids| - 1])
    requires forall i :: i in front <==> i in ids[..|ids| - 1] || i == n
    ensures forall a :: 0 <= a < |front| ==> PolicyBefore(s, front[a], ids[|ids| - 1])
  {
    hide PolicyBefore;
    forall a | 0 <= a < |front| ensures PolicyBefore(s, front[a], ids[|ids| - 1]) {
      assert front[a] in front;
      if front[a] != n {
        var b :| 0 <= b < |ids| - 1 && ids[b] == front[a];
        assert PolicyBefore(s, ids[b], ids[|ids| - 1]);
      }
    }
  }

  lemma PolicyAfterAll(s: seq<Continuation>, ids: seq<nat>, n: nat)
    requires n < |s| && RowsOf(s, ids) && InPolicyOrder(s, ids)
    requires ids == [] || PolicyBefore(s, ids[|ids| - 1], n)
    ensures forall a :: 0 <= a < |ids| ==> PolicyBefore(s, ids[a], n)
  {
    forall a | 0 <= a < |ids| ensures PolicyBefore(s, ids[a], n) {
      if a < |ids| - 1 { assert PolicyBefore(s, ids[a], ids[|ids| - 1]); }
    }
  }

  /** The candidates among the first n rows that pass the project filter, in policy order. */
  function Candidates(s: seq<Continuation>, keep: set<Id>, now: Time, n: nat): (ids: seq<nat>)
    requires n <= |s|
    ensures RowsOf(s, ids) && InPolicyOrder(s, ids)
    ensures forall i :: i in ids <==> 0 <= i < n && i in keep && IsCandidate(s[i], now)
  {
    if n == 0 then []
    else
      var ids := Candidates(s, keep, now, n - 1);
      if n - 1 in keep && IsCandidate(s[n - 1], now) then InsertByPolicy(s, ids, n - 1) else ids
  }

  function PolicyQueue(c: Continuation, id: Id, q: PolicyRequest): QueueRequest {
    QueueRequest(id, q.supervisor, q.supervisor, c.generation, q.runnerType, q.profile, q.leaseSeconds, q.maxAttempts,
                 q.backoff, q.envelope(id, q.profile.id), c.approval)
  }

  type PolicyKey = (Id, int) -> Id

  datatype PolicyResult = PolicyResult(dispatched: seq<QueueResult>, skipped: seq<Id>)

  /** One pass over some candidates, oldest decision first; what is refused is skipped. */
  function PolicyPass(t: State, ids: seq<nat>, q: PolicyRequest, key: PolicyKey, newItems: seq<Id>,
          now: Time): (r: (State, PolicyResult))
    requires RowsOf(t.rows, ids) && |newItems| >= |ids|
    ensures |r.0.rows| == |t.rows|
    decreases |ids|
  {
    if ids == [] then (WithClock(t, now), PolicyResult([], []))
    else
      var n := |ids| - 1;
      var (before, result) := PolicyPass(t, ids[..n], q, key, newItems, now);
      PolicyOne(before, result, ids[n], t.rows[ids[n]], q, key, newItems[n], now)
  }

  /** One candidate of a pass, with its row as it was when the pass began. */
  function PolicyOne(t: State, result: PolicyResult, id: nat, c: Continuation, q: PolicyRequest, key: PolicyKey,
          newItem: Id, now: Time): (r: (State, PolicyResult))
    ensures |r.0.rows| == |t.rows|
  {
    if c.action.RequestDecision? then (t, result.(skipped := result.skipped + [id]))
    else
      var (after, outcome) := Queue(t, PolicyQueue(c, id, q), Some(key(id, c.generation)), newItem, now);
      if outcome.QueueRefused? then (t, result.(skipped := result.skipped + [id]))
      else (after, result.(dispatched := result.dispatched + [outcome.result]))
  }

  function TakeFirst(ids: seq<nat>, n: nat): seq<nat> { if |ids| <= n then ids else ids[..n] }

  function RunPolicy(t: State, q: PolicyRequest, keep: set<Id>, key: PolicyKey, newItems: seq<Id>,
          now: Time): (State, PolicyResult)
    requires |newItems| >= q.limit
  {
    PolicyPass(t, TakeFirst(Candidates(t.rows, keep, now, |t.rows|), q.limit), q, key, newItems, now)
  }

  datatype Event =
    | OnPropose(continuation: Continuation, at: Time)
    | OnPerform(request: Request, key: Option<Id>, at: Time)
    | OnExpire(id: Id, at: Time)
    | OnQueue(queue: QueueRequest, key: Option<Id>, newItem: Id, at: Time)
    | OnPolicy(policy: PolicyRequest, keep: set<Id>, policyKey: PolicyKey, newItems: seq<Id>, at: Time)
    | OnRunner(event: R.Event)

  function TimeOf(e: Event): Time { if e.OnRunner? then R.TimeOf(e.event) else e.at }

  predicate LeaseTerms(leaseSeconds: int, maxAttempts: int, backoff: int) {
    30 <= leaseSeconds <= 86400 && 1 <= maxAttempts <= 20 && 0 <= backoff <= 86400
  }

  /** Item IDs to be issued are new, and distinct. */
  ghost predicate NewIds(t: State, ids: seq<Id>) {
    (forall a :: 0 <= a < |ids| ==> ids[a] !in t.runner.items) && forall a, b :: 0 <= a < b < |ids| ==> ids[a] != ids[b]
  }

  /** What the validators, the clock and the database guarantee; only the supervisor dispatches with a
      continuation reference. */
  ghost predicate Admissible(t: State, e: Event) {
    && t.runner.clock <= TimeOf(e) && 0 < TimeOf(e)
    && match e
       case OnQueue(q, _, newItem, _) => LeaseTerms(q.leaseSeconds, q.maxAttempts, q.backoff) && NewIds(t, [newItem])
       case OnPolicy(q, _, _, newItems, _) =>
         LeaseTerms(q.leaseSeconds, q.maxAttempts, q.backoff) && |newItems| == q.limit && NewIds(t, newItems)
       case OnRunner(event) =>
         R.Admissible(t.runner, event) && (event.OnDispatch? ==> event.dispatch.continuation.None?)
       case _ => true
  }

  ghost function Step(t: State, e: Event): State
    requires Admissible(t, e)
  {
    match e
    case OnPropose(c, at) => Propose(t, c, at)
    case OnPerform(q, key, at) => Perform(t, q, key, at).0
    case OnExpire(id, at) => Expire(t, id, at)
    case OnQueue(q, key, newItem, at) => Queue(t, q, key, newItem, at).0
    case OnPolicy(q, keep, key, newItems, at) => RunPolicy(t, q, keep, key, newItems, at).0
    case OnRunner(event) => t.(runner := R.Step(t.runner, event))
  }

  // ---------------------------------------------------------------- what holds between mutations

  predicate QueuedRun(c: Continuation, run: nat) {
    c.status == Consumed && c.result.Some? && c.result.value.QueuedFor? && c.result.value.queued == run
  }

  /** Runs dispatched for a continuation and continuations consumed by a supervisor belong to each other. */
  ghost predicate RunsPaired(t: State) {
    && (forall i :: 0 <= i < |t.runner.runs| && t.runner.runs[i].origin.Some? ==>
          var id := t.runner.runs[i].origin.value; id < |t.rows| && QueuedRun(t.rows[id], i))
    && (forall id :: 0 <= id < |t.rows| && t.rows[id].result.Some? && t.rows[id].result.value.QueuedFor? ==>
      NamesRun(t, id))
  }

  predicate NamesRun(t: State, id: nat)
    requires id < |t.rows| && t.rows[id].result.Some? && t.rows[id].result.value.QueuedFor?
  {
    var run := t.rows[id].result.value.queued;
    t.rows[id].status == Consumed && run < |t.runner.runs| && t.runner.runs[run].origin == Some(id)
    && t.runner.runs[run].item == t.rows[id].result.value.target
  }

  /** A client result is never of the supervisor's kind, and only a consumed continuation has one. */
  ghost predicate ResultsFit(t: State) {
    forall id :: 0 <= id < |t.rows| ==> (t.rows[id].result.Some? ==> t.rows[id].status == Consumed)
  }

  /** A stored queue command is behind the continuation it consumed. */
  ghost predicate QueuedBehind(t: State) {
    forall key :: key in t.queued ==>
      var q := t.queued[key].request; q.id < |t.rows| && q.expectedGeneration < t.rows[q.id].generation
  }

  ghost predicate Inv(t: State) { R.Inv(t.runner) && RunsPaired(t) && ResultsFit(t) && QueuedBehind(t) }

  /** How a row may change: only forward, and never once it is in a terminal status. */
  predicate Later(c: Continuation, c': Continuation) {
    && c'.source == c.source && c'.action == c.action && c'.approval == c.approval
      && c'.forSupervisor == c.forSupervisor
    && c'.expiresAt == c.expiresAt && c'.createdAt == c.createdAt
    && (c' == c || (c'.generation > c.generation && LiveStatus(c.status)))
  }

  ghost predicate RowsLater(t: State, t': State) {
    |t.rows| <= |t'.rows| && forall id :: 0 <= id < |t.rows| ==> Later(t.rows[id], t'.rows[id])
  }

  /** What an accepted command or edit says about the row: the generation it named, time left, and a
      result only where it consumes. */
  lemma ApplyLater(c: Continuation, q: Request, now: Time)
    requires Apply(c, q, now).Some?
    ensures var c' := Apply(c, q, now).value;
            && Later(c, c') && c.generation == q.expectedGeneration && c'.generation == c.generation + 1
              && LiveStatus(c.status)
            && (c.expiresAt.Some? ==> c.expiresAt.value > now)
            && (c.result.None? && c'.result.Some? ==> c'.status == Consumed && !c'.result.value.QueuedFor?)
  {
  }

  // ---------------------------------------------------------------- each mutation keeps the invariant

  lemma ClockKeepsInv(t: State, now: Time)
    requires Inv(t) && t.runner.clock <= now
    ensures Inv(WithClock(t, now))
  {
    hide R.Inv;
    R.LaterKeepsInv(t.runner, now);
    assert forall id :: 0 <= id < |t.rows| && t.rows[id].result.Some? && t.rows[id].result.value.QueuedFor? ==>
             NamesRun(t, id);
  }

  /** A row changes without a run: it gets no result of the supervisor's kind, and loses none. */
  lemma RowKeepsInv(t: State, id: nat, c: Continuation)
    requires Inv(t) && id < |t.rows| && Later(t.rows[id], c)
    requires c.result.Some? ==> c.status == Consumed && (!c.result.value.QueuedFor? || c == t.rows[id])
    ensures Inv(t.(rows := t.rows[id := c]))
  {
    hide R.Inv;
    var t' := t.(rows := t.rows[id := c]);
    forall i | 0 <= i < |t'.rows| && t'.rows[i].result.Some? && t'.rows[i].result.value.QueuedFor?
      ensures NamesRun(t', i)
    {
      assert NamesRun(t, i);
    }
  }

  lemma PerformKeepsInv(t: State, q: Request, key: Option<Id>, now: Time)
    requires Inv(t) && t.runner.clock <= now
    ensures Inv(Perform(t, q, key, now).0)
  {
    hide R.Inv, Apply;
    ClockKeepsInv(t, now);
    var (t', outcome) := Perform(t, q, key, now);
    if outcome.Accepted? {
      ApplyLater(t.rows[q.id], q, now);
      LiveHasNoResult(t, q.id);
      var t0 := WithClock(t, now);
      RowKeepsInv(t0, q.id, outcome.continuation);
      StoringKeepsInv(t0.(rows := t'.rows), t'.commands);
    }
  }

  lemma LiveHasNoResult(t: State, id: nat)
    requires Inv(t) && id < |t.rows| && LiveStatus(t.rows[id].status)
    ensures t.rows[id].result.None?
  {
  }

  lemma StoringKeepsInv(t: State, commands: map<Id, Stored>)
    requires Inv(t)
    ensures Inv(t.(commands := commands))
  {
    hide R.Inv;
    assert forall id :: 0 <= id < |t.rows| && t.rows[id].result.Some? && t.rows[id].result.value.QueuedFor? ==>
             NamesRun(t, id);
  }

  lemma ProposeKeepsInv(t: State, c: Continuation, now: Time)
    requires Inv(t) && t.runner.clock <= now
    ensures Inv(Propose(t, c, now))
  {
    hide R.Inv;
    ClockKeepsInv(t, now);
    var t' := Propose(t, c, now);
    forall i | 0 <= i < |t'.rows| && t'.rows[i].result.Some? && t'.rows[i].result.value.QueuedFor?
      ensures NamesRun(t', i)
    {
      assert NamesRun(t, i);
    }
  }

  lemma ExpireKeepsInv(t: State, id: Id, now: Time)
    requires Inv(t) && t.runner.clock <= now
    ensures Inv(Expire(t, id, now))
  {
    hide R.Inv;
    ClockKeepsInv(t, now);
    if id < |t.rows| {
      if IsExpired(t.rows[id], now) { LiveHasNoResult(t, id); }
      SameResult(t, id);
      RowKeepsInv(WithClock(t, now), id, ExpireIfNeeded(t.rows[id], now));
    }
  }

  lemma SameResult(t: State, id: nat)
    requires Inv(t) && id < |t.rows|
    ensures t.rows[id].result.Some? ==> t.rows[id].status == Consumed
  {
  }

  lemma NewItemKeepsRunner(runner: R.State, id: Id, item: R.Item)
    requires R.Inv(runner) && id !in runner.items
    ensures R.Inv(runner.(items := runner.items[id := item]))
  {
    hide R.Newest, R.Projected, R.RunOk, R.Closed;
    var runner' := runner.(items := runner.items[id := item]);
    forall i | 0 <= i < |runner'.runs| ensures R.MirrorsNewest(runner', runner'.runs[i].item) {
      assert R.MirrorsNewest(runner, runner.runs[i].item);
    }
  }

  /** Once the supervisor's checks have passed the dispatch goes through. */
  lemma QueueDispatches(t: State, q: QueueRequest, newItem: Id, now: Time)
    requires Inv(t) && t.runner.clock <= now && 0 < now && Queueable(t, q, now) && newItem !in t.runner.items
    requires LeaseTerms(q.leaseSeconds, q.maxAttempts, q.backoff)
    ensures var c := t.rows[q.id];
            var target, runner := TargetOf(c.action, newItem), WithTarget(t.runner, c.action, newItem);
            && target in runner.items && R.Inv(runner)
            && var d := DispatchFor(c, q, target, runner.items[target].claimGeneration, now);
            && var (runner', outcome) := R.Dispatch(runner, d);
            && outcome == R.Dispatched(|t.runner.runs|)
            && R.Inv(runner') && runner'.clock == now
            && |runner'.runs| == |t.runner.runs| + 1 && runner'.runs[..|t.runner.runs|] == t.runner.runs
            && runner'.runs[|t.runner.runs|].continuation == runner'.runs[|t.runner.runs|].origin == Some(q.id)
            && runner'.runs[|t.runner.runs|].item == target
  {
    hide R.Inv;
    var c := t.rows[q.id];
    var target, runner := TargetOf(c.action, newItem), WithTarget(t.runner, c.action, newItem);
    if c.action.CreateItem? { NewItemKeepsRunner(t.runner, newItem, R.Item(c.action.project, R.Ready, None, None, 0)); }
    R.DispatchKeepsInv(runner, DispatchFor(c, q, target, runner.items[target].claimGeneration, now));
  }

  lemma QueueKeepsInv(t: State, q: QueueRequest, key: Option<Id>, newItem: Id, now: Time)
    requires Inv(t) && t.runner.clock <= now && 0 < now && newItem !in t.runner.items
    requires LeaseTerms(q.leaseSeconds, q.maxAttempts, q.backoff)
    ensures Inv(Queue(t, q, key, newItem, now).0)
  {
    hide R.Inv, R.Dispatch, Queueable;
    ClockKeepsInv(t, now);
    var (t', outcome) := Queue(t, q, key, newItem, now);
    if outcome.Dispatched? {
      QueueDispatches(t, q, newItem, now);
      QueueableFacts(t, q, now);
      LiveHasNoResult(t, q.id);
      var n := |t.runner.runs|;
      forall i | 0 <= i < |t'.runner.runs| && t'.runner.runs[i].origin.Some?
        ensures var id := t'.runner.runs[i].origin.value; id < |t'.rows| && QueuedRun(t'.rows[id], i)
      {
        if i < n { assert t'.runner.runs[..n][i] == t'.runner.runs[i]; }
      }
      forall i | 0 <= i < |t'.rows| && t'.rows[i].result.Some? && t'.rows[i].result.value.QueuedFor?
        ensures NamesRun(t', i)
      {
        if i != q.id {
          assert NamesRun(t, i);
          assert t'.runner.runs[..n][t.rows[i].result.value.queued] == t'.runner.runs[t.rows[i].result.value.queued];
        }
      }
    }
  }

  lemma QueueableFacts(t: State, q: QueueRequest, now: Time)
    requires Queueable(t, q, now)
    ensures q.id < |t.rows| && LiveStatus(t.rows[q.id].status) && t.rows[q.id].generation == q.expectedGeneration
    ensures !IsExpired(t.rows[q.id], now) && !t.rows[q.id].action.RequestDecision?
  {
  }

  lemma RunnerKeepsContinuations(t: State, event: R.Event)
    requires Inv(t) && Admissible(t, OnRunner(event))
    ensures Inv(t.(runner := R.Step(t.runner, event)))
  {
    hide R.Inv, R.Step, R.Admissible;
    var t' := t.(runner := R.Step(t.runner, event));
    R.StepKeepsInv(t.runner, event);
    StepAppends(t.runner, event);
    forall i | 0 <= i < |t.runner.runs|
      ensures t'.runner.runs[i].origin == t.runner.runs[i].origin && t'.runner.runs[i].item == t.runner.runs[i].item
    {
      R.StepReferences(t.runner, event, i);
    }
    forall i | 0 <= i < |t'.rows| && t'.rows[i].result.Some? && t'.rows[i].result.value.QueuedFor?
      ensures NamesRun(t', i)
    {
      assert NamesRun(t, i);
    }
  }

  lemma StepAppends(runner: R.State, event: R.Event)
    ensures var runner' := R.Step(runner, event);
            |runner.runs| <= |runner'.runs|
            && forall i :: |runner.runs| <= i < |runner'.runs| ==>
                 event.OnDispatch? && runner'.runs[i].origin == runner'.runs[i].continuation ==
                   event.dispatch.continuation
  {
    hide R.Claim, R.TooManyExpired, R.NextRun, Tables.Scan;
    if event.OnClaim? { R.ClaimKeepsLength(runner, event.claim); }
  }

  // ---------------------------------------------------------------- one pass of the policy

  /** A dispatch of the pass: its continuation is consumed by it, its item is taken, its run exists. */
  ghost predicate DispatchStands(t: State, d: QueueResult) {
    && d.id < |t.rows| && t.rows[d.id].status == Consumed && t.rows[d.id].result == Some(QueuedFor(d.item, d.run))
    && d.item in t.runner.items && t.runner.items[d.item].status == R.Active
    && d.run < |t.runner.runs| && t.runner.runs[d.run].item == d.item
    && t.runner.runs[d.run].continuation == t.runner.runs[d.run].origin == Some(d.id)
  }

  ghost predicate DifferentDispatches(ds: seq<QueueResult>) {
    forall a, b :: 0 <= a < b < |ds| ==> ds[a].id != ds[b].id && ds[a].item != ds[b].item && ds[a].run != ds[b].run
  }

  ghost predicate SkippedUntouched(t: State, t': State, skipped: seq<Id>) {
    forall a :: 0 <= a < |skipped| ==>
      skipped[a] < |t.rows| && |t'.rows| == |t.rows| && t'.rows[skipped[a]] == t.rows[skipped[a]]
  }

  /** What a pass over the given candidates leaves. */
  ghost predicate PassOk(t: State, ids: seq<nat>, t': State, result: PolicyResult, newItems: seq<Id>, now: Time) {
    && Inv(t') && t'.runner.clock == now && RowsLater(t, t') && |t'.rows| == |t.rows|
    && |result.dispatched| + |result.skipped| == |ids|
    && (forall i :: 0 <= i < |t.rows| && i !in ids ==> t'.rows[i] == t.rows[i])
    && SkippedUntouched(t, t', result.skipped) && (forall a :: 0 <= a < |result.skipped| ==> result.skipped[a] in ids)
    && (forall a :: 0 <= a < |result.dispatched| ==>
      result.dispatched[a].id in ids && DispatchStands(t', result.dispatched[a]))
    && DifferentDispatches(result.dispatched)
    && (forall id :: id in t'.runner.items ==> id in t.runner.items || id in newItems)
  }

  /** A dispatch leaves the items and runs of earlier ones alone. */
  lemma QueueKeepsDispatches(t: State, q: QueueRequest, key: Option<Id>, newItem: Id, now: Time, d: QueueResult)
    requires Inv(t) && t.runner.clock <= now && 0 < now && newItem !in t.runner.items
    requires LeaseTerms(q.leaseSeconds, q.maxAttempts, q.backoff)
    requires Queue(t, q, key, newItem, now).1.Dispatched? && DispatchStands(t, d)
    ensures DispatchStands(Queue(t, q, key, newItem, now).0, d)
    ensures var n := Queue(t, q, key, newItem, now).1.result; n.id != d.id && n.item != d.item && n.run != d.run
  {
    hide R.Inv;
    QueueDispatches(t, q, newItem, now);
    var t' := Queue(t, q, key, newItem, now).0;
    assert t'.runner.runs[..|t.runner.runs|][d.run] == t'.runner.runs[d.run];
  }

  lemma QueueStands(t: State, q: QueueRequest, key: Option<Id>, newItem: Id, now: Time)
    requires Inv(t) && t.runner.clock <= now && 0 < now && newItem !in t.runner.items
    requires LeaseTerms(q.leaseSeconds, q.maxAttempts, q.backoff) && Queue(t, q, key, newItem, now).1.Dispatched?
    ensures var (t', outcome) := Queue(t, q, key, newItem, now);
            && DispatchStands(t', outcome.result) && outcome.result.id == q.id && t'.runner.clock == now
            && RowsLater(t, t') && |t'.rows| == |t.rows|
              && (forall i :: 0 <= i < |t.rows| && i != q.id ==> t'.rows[i] == t.rows[i])
            && (forall id :: id in t'.runner.items ==> id in t.runner.items || id == newItem)
  {
    hide R.Inv;
    QueueDispatches(t, q, newItem, now);
    QueueableFacts(t, q, now);
  }

  /** A key that the policy used before is behind the generation it asks for now. */
  lemma PolicyNeverReplays(t: State, q: QueueRequest, key: Option<Id>, newItem: Id, now: Time)
    requires Inv(t) && q.id < |t.rows| && t.rows[q.id].generation == q.expectedGeneration
    ensures !Queue(t, q, key, newItem, now).1.QueueReplayed?
  {
    hide R.Inv, R.Dispatch, Queueable;
  }

  lemma PolicyOneKeeps(t: State, before: State, ids: seq<nat>, id: nat, result: PolicyResult, q: PolicyRequest,
          key: PolicyKey, newItems: seq<Id>, newItem: Id, now: Time)
    requires PassOk(t, ids, before, result, newItems, now) && 0 < now
             && LeaseTerms(q.leaseSeconds, q.maxAttempts, q.backoff)
    requires id < |t.rows| && id !in ids && newItem !in t.runner.items && newItem !in newItems
    ensures var (after, result') := PolicyOne(before, result, id, t.rows[id], q, key, newItem, now);
            PassOk(t, ids + [id], after, result', newItems + [newItem], now)
  {
    hide Inv, DispatchStands, RowsLater, Queue, R.Inv;
    var c := t.rows[id];
    var request, k := PolicyQueue(c, id, q), Some(key(id, c.generation));
    var (after, result') := PolicyOne(before, result, id, c, q, key, newItem, now);
    if result'.dispatched != result.dispatched {
      PolicyNeverReplays(before, request, k, newItem, now);
      QueueKeepsInv(before, request, k, newItem, now);
      QueueStands(before, request, k, newItem, now);
      LaterTwice(t, before, after);
      forall a | 0 <= a < |result.dispatched|
        ensures DispatchStands(after, result.dispatched[a])
        ensures result.dispatched[a].id != id
                && result.dispatched[a].item != result'.dispatched[|result.dispatched|].item
        ensures result.dispatched[a].run != result'.dispatched[|result.dispatched|].run
      {
        QueueKeepsDispatches(before, request, k, newItem, now, result.dispatched[a]);
      }
    }
  }

  lemma LaterTwice(a: State, b: State, c: State)
    requires RowsLater(a, b) && RowsLater(b, c)
    ensures RowsLater(a, c)
  {
    assert forall id :: 0 <= id < |a.rows| ==> Later(a.rows[id], b.rows[id]) && Later(b.rows[id], c.rows[id]);
  }

  lemma PassStart(t: State, now: Time)
    requires Inv(t) && t.runner.clock <= now
    ensures PassOk(t, [], WithClock(t, now), PolicyResult([], []), [], now)
  {
    hide Inv;
    ClockKeepsInv(t, now);
  }

  lemma {:induction false} PassKeeps(t: State, ids: seq<nat>, q: PolicyRequest, key: PolicyKey, newItems: seq<Id>,
          now: Time)
    requires Inv(t) && t.runner.clock <= now && 0 < now && LeaseTerms(q.leaseSeconds, q.maxAttempts, q.backoff)
    requires RowsOf(t.rows, ids) && |newItems| >= |ids| && NewIds(t, newItems)
    requires forall a, b :: 0 <= a < b < |ids| ==> ids[a] != ids[b]
    ensures var (t', result) := PolicyPass(t, ids, q, key, newItems, now);
            PassOk(t, ids, t', result, newItems[..|ids|], now)
    decreases |ids|
  {
    hide Inv, PolicyOne, PassOk;
    if ids == [] {
      PassStart(t, now);
      assert newItems[..0] == [];
    } else {
      var n := |ids| - 1;
      var (before, result) := PolicyPass(t, ids[..n], q, key, newItems, now);
      PassKeeps(t, ids[..n], q, key, newItems, now);
      PolicyOneKeeps(t, before, ids[..n], ids[n], result, q, key, newItems[..n], newItems[n], now);
      assert ids[..n] + [ids[n]] == ids && newItems[..n] + [newItems[n]] == newItems[..|ids|];
    }
  }

  lemma CandidatesDistinct(s: seq<Continuation>, ids: seq<nat>)
    requires RowsOf(s, ids) && InPolicyOrder(s, ids)
    ensures forall a, b :: 0 <= a < b < |ids| ==> ids[a] != ids[b]
  {
    assert forall a, b :: 0 <= a < b < |ids| ==> PolicyBefore(s, ids[a], ids[b]);
  }

  /** Candidate j came before candidate i, which was dispatched. */
  ghost predicate MoreUrgent(t: State, t': State, keep: set<Id>, now: Time, i: int, j: int) {
    && 0 <= i < |t.rows| && 0 <= j < |t.rows| && |t'.rows| == |t.rows| && t'.rows[i] != t.rows[i]
    && j in keep && IsCandidate(t.rows[j], now) && PolicyBefore(t.rows, j, i)
  }

  /** One policy pass considers the first candidates in order of urgency, up to its limit; it
      dispatches no continuation, item or run twice, consumes what it dispatches, and leaves what it
      skips exactly as it was. */
  lemma PolicyDispatchesWithinLimit(t: State, q: PolicyRequest, keep: set<Id>, key: PolicyKey, newItems: seq<Id>,
          now: Time)
    requires Inv(t) && Admissible(t, OnPolicy(q, keep, key, newItems, now))
    ensures var (t', result) := RunPolicy(t, q, keep, key, newItems, now);
            && Inv(t') && RowsLater(t, t')
            && |result.dispatched| + |result.skipped| <= q.limit
            && |result.dispatched| + |result.skipped| == |TakeFirst(Candidates(t.rows, keep, now, |t.rows|), q.limit)|
            && (forall a :: 0 <= a < |result.dispatched| ==>
                  DispatchStands(t', result.dispatched[a]) && IsCandidate(t.rows[result.dispatched[a].id], now)
                    && result.dispatched[a].id in keep)
            && DifferentDispatches(result.dispatched)
            && SkippedUntouched(t, t', result.skipped)
            && (forall i, j :: MoreUrgent(t, t', keep, now, i, j) ==>
              j in TakeFirst(Candidates(t.rows, keep, now, |t.rows|), q.limit))
  {
    hide Inv, DispatchStands, RowsLater, SkippedUntouched, DifferentDispatches, IsCandidate, PolicyBefore, PolicyPass;
    var all := Candidates(t.rows, keep, now, |t.rows|);
    CandidatesDistinct(t.rows, all);
    var ids := TakeFirst(all, q.limit);
    assert forall a :: 0 <= a < |ids| ==> ids[a] == all[a];
    PassKeeps(t, ids, q, key, newItems, now);
    var (t', result) := RunPolicy(t, q, keep, key, newItems, now);
    forall i, j | MoreUrgent(t, t', keep, now, i, j) ensures j in ids {
      assert i in ids && j in all;
      UrgentFirst(t.rows, all, q.limit, i, j);
    }
  }

  lemma UrgentFirst(s: seq<Continuation>, all: seq<nat>, limit: nat, i: nat, j: nat)
    requires RowsOf(s, all) && InPolicyOrder(s, all) && i in TakeFirst(all, limit) && j in all && PolicyBefore(s, j, i)
    ensures j in TakeFirst(all, limit)
  {
    var ids := TakeFirst(all, limit);
    var a :| 0 <= a < |ids| && ids[a] == i;
    var b :| 0 <= b < |all| && all[b] == j;
    assert all[a] == i;
    assert b <= a;
  }

  // ---------------------------------------------------------------- whole runs

  lemma StepKeepsInv(t: State, e: Event)
    requires Inv(t) && Admissible(t, e)
    ensures Inv(Step(t, e)) && RowsLater(t, Step(t, e))
  {
    hide Inv, Apply, Queueable, R.Step, R.Inv, RunPolicy, R.Dispatch;
    match e
    case OnPropose(c, at) => ProposeKeepsInv(t, c, at);
    case OnPerform(q, key, at) =>
      PerformKeepsInv(t, q, key, at);
      if q.id < |t.rows| && Apply(t.rows[q.id], q, at).Some? { ApplyLater(t.rows[q.id], q, at); }
    case OnExpire(id, at) => ExpireKeepsInv(t, id, at);
    case OnQueue(q, key, newItem, at) =>
      assert [newItem][0] == newItem;
      QueueKeepsInv(t, q, key, newItem, at);
      if Queue(t, q, key, newItem, at).1.Dispatched? { QueueStands(t, q, key, newItem, at); }
    case OnPolicy(q, keep, key, newItems, at) => PolicyDispatchesWithinLimit(t, q, keep, key, newItems, at);
    case OnRunner(event) => RunnerKeepsContinuations(t, event);
  }

  ghost predicate AdmissibleRun(t: State, es: seq<Event>)
    decreases |es|
  {
    es == [] || (Admissible(t, es[0]) && AdmissibleRun(Step(t, es[0]), es[1..]))
  }

  ghost function Run(t: State, es: seq<Event>): State
    requires AdmissibleRun(t, es)
    decreases |es|
  {
    if es == [] then t else Run(Step(t, es[0]), es[1..])
  }

  /** Over any run the pairing of continuations and runs holds, generations never fall, and a
      continuation in a terminal status never changes again. */
  lemma {:induction false} ContinuationsMoveForward(t: State, es: seq<Event>)
    requires Inv(t) && AdmissibleRun(t, es)
    ensures Inv(Run(t, es)) && RowsLater(t, Run(t, es))
    decreases |es|
  {
    hide Inv, Step, Admissible, RowsLater;
    if es == [] {
      LaterItself(t);
    } else {
      StepKeepsInv(t, es[0]);
      ContinuationsMoveForward(Step(t, es[0]), es[1..]);
      LaterTwice(t, Step(t, es[0]), Run(t, es));
    }
  }

  lemma LaterItself(t: State)
    ensures RowsLater(t, t)
  {
  }

  lemma TerminalIsAbsorbing(t: State, es: seq<Event>, id: nat)
    requires Inv(t) && AdmissibleRun(t, es) && id < |t.rows| && Terminal(t.rows[id].status)
    ensures id < |Run(t, es).rows| && Run(t, es).rows[id] == t.rows[id]
  {
    hide Inv;
    ContinuationsMoveForward(t, es);
    assert Later(t.rows[id], Run(t, es).rows[id]);
  }

  /** Exactly one run is ever dispatched for a continuation that a supervisor consumed, and none for any other. */
  lemma OneRunPerContinuation(t: State, id: nat, run: nat)
    requires Inv(t) && id < |t.rows|
    ensures run < |t.runner.runs| && t.runner.runs[run].origin == Some(id) <==> QueuedRun(t.rows[id], run)
  {
    hide R.Inv;
    if QueuedRun(t.rows[id], run) { assert NamesRun(t, id); }
  }

  /** Was a command of this step accepted at generation g of continuation id? A policy pass gives one
      command to each continuation it dispatches. */
  ghost predicate AcceptedAt(t: State, e: Event, id: nat, g: int) {
    || (e.OnPolicy? && |e.newItems| >= e.policy.limit && id < |t.rows| && t.rows[id].generation == g
        && DispatchedIn(RunPolicy(t, e.policy, e.keep, e.policyKey, e.newItems, e.at).1, id))
    || (e.OnPerform? && e.request.id == id && e.request.expectedGeneration == g
      && Perform(t, e.request, e.key, e.at).1.Accepted?)
    || (e.OnQueue? && e.queue.id == id && e.queue.expectedGeneration == g
      && Queue(t, e.queue, e.key, e.newItem, e.at).1.Dispatched?)
  }

  ghost predicate DispatchedIn(result: PolicyResult, id: nat) {
    exists a :: 0 <= a < |result.dispatched| && result.dispatched[a].id == id
  }

  lemma PolicyAcceptedMeans(t: State, e: Event, id: nat)
    requires Inv(t) && Admissible(t, e) && e.OnPolicy? && id < |t.rows|
    requires DispatchedIn(RunPolicy(t, e.policy, e.keep, e.policyKey, e.newItems, e.at).1, id)
    ensures id < |Step(t, e).rows| && Step(t, e).rows[id].generation > t.rows[id].generation
    ensures t.rows[id].expiresAt.Some? ==> t.rows[id].expiresAt.value > e.at
  {
    hide Inv, RunPolicy, Candidates, DifferentDispatches, SkippedUntouched, MoreUrgent;
    PolicyDispatchesWithinLimit(t, e.policy, e.keep, e.policyKey, e.newItems, e.at);
    var (t', result) := RunPolicy(t, e.policy, e.keep, e.policyKey, e.newItems, e.at);
    var a :| 0 <= a < |result.dispatched| && result.dispatched[a].id == id;
    assert DispatchStands(t', result.dispatched[a]) && IsCandidate(t.rows[id], e.at);
    assert Later(t.rows[id], t'.rows[id]);
  }

  lemma AcceptedMeans(t: State, e: Event, id: nat, g: int)
    requires Inv(t) && Admissible(t, e) && AcceptedAt(t, e, id, g)
    ensures id < |t.rows| && t.rows[id].generation == g
    ensures id < |Step(t, e).rows| && Step(t, e).rows[id].generation > g
    ensures t.rows[id].expiresAt.Some? ==> t.rows[id].expiresAt.value > TimeOf(e)
  {
    hide Inv, Apply, R.Step, R.Dispatch, RunPolicy, DispatchedIn;
    if e.OnPolicy? {
      PolicyAcceptedMeans(t, e, id);
    } else if e.OnPerform? {
      ApplyLater(t.rows[id], e.request, e.at);
    } else {
      QueueableFacts(t, e.queue, e.at);
    }
  }

  /** No two commands, edits or dispatches are ever accepted at one generation, and none at or after
      the expiry. */
  lemma AcceptedOncePerGeneration(t: State, e: Event, es: seq<Event>, later: Event, id: nat, g: int, g': int)
    requires Inv(t) && Admissible(t, e) && AcceptedAt(t, e, id, g) && AdmissibleRun(Step(t, e), es)
    requires Admissible(Run(Step(t, e), es), later) && AcceptedAt(Run(Step(t, e), es), later, id, g')
    ensures g < g'
    ensures t.rows[id].expiresAt.Some? ==> TimeOf(e) < t.rows[id].expiresAt.value
  {
    hide Inv, Step, Admissible, AcceptedAt;
    StepKeepsInv(t, e);
    AcceptedMeans(t, e, id, g);
    ContinuationsMoveForward(Step(t, e), es);
    AcceptedMeans(Run(Step(t, e), es), later, id, g');
    assert Later(Step(t, e).rows[id], Run(Step(t, e), es).rows[id]);
  }

  // ---------------------------------------------------------------- the reference column

  /** What a reader of the tables takes for granted: a run with a reference belongs to the continuation
      it names, and the run that a consumed continuation records refers back to it. */
  ghost predicate ReferencesPaired(t: State) {
    && (forall i :: 0 <= i < |t.runner.runs| && t.runner.runs[i].continuation.Some? ==>
          var id := t.runner.runs[i].continuation.value; id < |t.rows| && QueuedRun(t.rows[id], i))
    && (forall id :: 0 <= id < |t.rows| && t.rows[id].result.Some? && t.rows[id].result.value.QueuedFor? ==>
      RefersBack(t, id))
  }

  predicate RefersBack(t: State, id: nat)
    requires id < |t.rows| && t.rows[id].result.Some? && t.rows[id].result.value.QueuedFor?
  {
    var run := t.rows[id].result.value.queued;
    run < |t.runner.runs| && t.runner.runs[run].continuation == Some(id)
  }

  /** Every run still has the reference of its dispatch. */
  ghost predicate ReferencesKept(runs: seq<Tables.QueuedRun>) {
    forall i :: 0 <= i < |runs| ==> runs[i].continuation == runs[i].origin
  }

  lemma PairedIsKept(t: State)
    requires Inv(t)
    ensures ReferencesPaired(t) <==> ReferencesKept(t.runner.runs)
  {
    hide R.Inv;
    if ReferencesPaired(t) {
      forall i | 0 <= i < |t.runner.runs| ensures t.runner.runs[i].continuation == t.runner.runs[i].origin {
        var r := t.runner.runs[i];
        if r.continuation.Some? { assert NamesRun(t, r.continuation.value); }
        if r.origin.Some? { assert RefersBack(t, r.origin.value); }
      }
    }
    if ReferencesKept(t.runner.runs) {
      forall id | 0 <= id < |t.rows| && t.rows[id].result.Some? && t.rows[id].result.value.QueuedFor?
        ensures RefersBack(t, id)
      {
        assert NamesRun(t, id);
      }
    }
  }

  /** Did this step accept a transition that carries another reference than the run has? */
  predicate Replaces(t: State, e: Event) {
    && e.OnRunner? && e.event.OnTransition?
    && var i := e.event.fence.id;
    i < |t.runner.runs| && R.Carries(t.runner, e.event, i) && e.event.reference != t.runner.runs[i].continuation
  }

  /** The old runs are there as before, and new ones have the reference of their dispatch. */
  ghost predicate Appends(runs: seq<Tables.QueuedRun>, runs': seq<Tables.QueuedRun>) {
    runs <= runs' && forall i :: |runs| <= i < |runs'| ==> runs'[i].continuation == runs'[i].origin
  }

  lemma AppendsTwice(a: seq<Tables.QueuedRun>, b: seq<Tables.QueuedRun>, c: seq<Tables.QueuedRun>)
    requires Appends(a, b) && Appends(b, c)
    ensures Appends(a, c)
  {
    assert forall i :: |a| <= i < |b| ==> c[i] == b[i];
  }

  lemma QueueAppends(t: State, q: QueueRequest, key: Option<Id>, newItem: Id, now: Time)
    ensures Appends(t.runner.runs, Queue(t, q, key, newItem, now).0.runner.runs)
  {
    hide Queueable;
  }

  lemma {:induction false} PassAppends(t: State, ids: seq<nat>, q: PolicyRequest, key: PolicyKey, newItems: seq<Id>,
          now: Time)
    requires RowsOf(t.rows, ids) && |newItems| >= |ids|
    ensures Appends(t.runner.runs, PolicyPass(t, ids, q, key, newItems, now).0.runner.runs)
    decreases |ids|
  {
    hide Appends, Queue;
    if ids == [] {
      AppendsNothing(t.runner.runs);
    } else {
      var n := |ids| - 1;
      var before := PolicyPass(t, ids[..n], q, key, newItems, now).0;
      PassAppends(t, ids[..n], q, key, newItems, now);
      var c := t.rows[ids[n]];
      QueueAppends(before, PolicyQueue(c, ids[n], q), Some(key(ids[n], c.generation)), newItems[n], now);
      AppendsNothing(before.runner.runs);
      AppendsTwice(t.runner.runs, before.runner.runs, PolicyPass(t, ids, q, key, newItems, now).0.runner.runs);
    }
  }

  lemma AppendsNothing(runs: seq<Tables.QueuedRun>)
    ensures Appends(runs, runs)
  {
  }

  /** Only the scheduler's own steps write a run that is already there. */
  lemma StepAppendsRuns(t: State, e: Event)
    requires Admissible(t, e) && !e.OnRunner?
    ensures Appends(t.runner.runs, Step(t, e).runner.runs)
  {
    hide Appends, Queue, PolicyPass, Perform, Candidates, IsCandidate;
    AppendsNothing(t.runner.runs);
    match e
    case OnPerform(q, key, at) => PerformKeepsRunner(t, q, key, at);
    case OnQueue(q, key, newItem, at) => QueueAppends(t, q, key, newItem, at);
    case OnPolicy(q, keep, key, newItems, at) =>
      PassAppends(t, TakeFirst(Candidates(t.rows, keep, at, |t.rows|), q.limit), q, key, newItems, at);
    case _ =>
  }

  lemma PerformKeepsRunner(t: State, q: Request, key: Option<Id>, now: Time)
    ensures Perform(t, q, key, now).0.runner.runs == t.runner.runs
  {
  }

  /** One step keeps all references exactly when it replaces none. */
  lemma StepKeepsReferences(t: State, e: Event)
    requires Inv(t) && Admissible(t, e) && ReferencesKept(t.runner.runs)
    ensures ReferencesKept(Step(t, e).runner.runs) <==> !Replaces(t, e)
  {
    hide Inv, R.Step, R.Transition, R.Admissible, Queue, PolicyPass, Perform, Candidates;
    if e.OnRunner? {
      var runs, runs' := t.runner.runs, R.Step(t.runner, e.event).runs;
      StepAppends(t.runner, e.event);
      forall i | 0 <= i < |runs|
        ensures runs'[i].continuation ==
                  if R.Carries(t.runner, e.event, i) then e.event.reference else runs[i].continuation
        ensures runs'[i].origin == runs[i].origin
      {
        R.StepReferences(t.runner, e.event, i);
      }
    } else {
      StepAppendsRuns(t, e);
    }
  }

  ghost predicate PairedThroughout(t: State, es: seq<Event>)
    requires AdmissibleRun(t, es)
    decreases |es|
  {
    ReferencesPaired(t) && (es == [] || PairedThroughout(Step(t, es[0]), es[1..]))
  }

  /** Does any step of this history replace a reference? */
  ghost predicate ReplacedIn(t: State, es: seq<Event>)
    requires AdmissibleRun(t, es)
    decreases |es|
  {
    es != [] && (Replaces(t, es[0]) || ReplacedIn(Step(t, es[0]), es[1..]))
  }

  /** Over every history, references and recorded results stay paired if and only if no accepted
      transition carried a reference different from the one stored. */
  lemma {:induction false} PairedUnlessReplaced(t: State, es: seq<Event>)
    requires Inv(t) && AdmissibleRun(t, es) && ReferencesPaired(t)
    ensures PairedThroughout(t, es) <==> !ReplacedIn(t, es)
    decreases |es|
  {
    hide Inv, Step, Admissible, ReferencesPaired, ReferencesKept, Replaces;
    if es != [] {
      StepKeepsInv(t, es[0]);
      PairedIsKept(t);
      PairedIsKept(Step(t, es[0]));
      StepKeepsReferences(t, es[0]);
      if ReferencesPaired(Step(t, es[0])) {
        PairedUnlessReplaced(Step(t, es[0]), es[1..]);
      } else if es[1..] == [] {
        assert !PairedThroughout(Step(t, es[0]), es[1..]);
      }
    }
  }

  lemma StepKeepsClosed(t: State, e: Event, i: nat)
    requires Inv(t) && Admissible(t, e) && i < |t.runner.runs| && R.Closed(t.runner.runs[i])
    ensures i < |Step(t, e).runner.runs| && Step(t, e).runner.runs[i] == t.runner.runs[i]
  {
    hide Inv, R.Step, R.Admissible, Queue, PolicyPass, Perform, Candidates, R.Written;
    if e.OnRunner? { R.StepWrites(t.runner, e.event, i); } else { StepAppendsRuns(t, e); }
  }

  /** A run that closes with another reference than that of its dispatch leaves the tables unpaired for ever. */
  lemma {:induction false} ClosedMismatchStays(t: State, es: seq<Event>, i: nat)
    requires Inv(t) && AdmissibleRun(t, es)
    requires i < |t.runner.runs| && R.Closed(t.runner.runs[i])
             && t.runner.runs[i].continuation != t.runner.runs[i].origin
    ensures !ReferencesPaired(Run(t, es))
    decreases |es|
  {
    hide Inv, Step, Admissible, ReferencesPaired, R.Closed;
    if es == [] {
      PairedIsKept(t);
    } else {
      StepKeepsInv(t, es[0]);
      StepKeepsClosed(t, es[0], i);
      ClosedMismatchStays(Step(t, es[0]), es[1..], i);
    }
  }

  lemma RunCons(t: State, e: Event, es: seq<Event>)
    requires Admissible(t, e) && AdmissibleRun(Step(t, e), es)
    ensures AdmissibleRun(t, [e] + es) && Run(t, [e] + es) == Run(Step(t, e), es)
  {
    assert ([e] + es)[0] == e && ([e] + es)[1..] == es;
  }

  const SAMPLE_ITEM := R.Item(5, R.Ready, None, None, 0)
  const SAMPLE_RUN := Tables.QueuedRun(5, 0, 3, 4, Tables.Profile(5, None), Some(0), Some(0), Tables.Record(1, 1),
                                       Tables.Queued, 1, 1, Some(3), Some(900020), 0, 1, 0, None, 20)

  /** One item, and one continuation that dispatches it, queued for supervisor 3. */
  lemma SampleQueued() returns (t: State, propose: Event, queue: Event)
    ensures Inv(t) && ReferencesPaired(t) && Admissible(t, propose) && Admissible(Step(t, propose), queue)
    ensures var t' := Step(Step(t, propose), queue);
            |t'.rows| == 1 && QueuedRun(t'.rows[0], 0) && t'.runner.runs == [SAMPLE_RUN] && 0 in t'.runner.items
              && t'.runner.clock == 20
  {
    hide Inv, ReferencesPaired;
    t := State([], R.State([], map[0 := SAMPLE_ITEM], 0), map[], map[]);
    FreshIsSound(t);
    var c := Continuation(0, 1, DispatchItem(0, None), Human, true, Proposed, 1, None, None, 10);
    propose := OnPropose(c, 10);
    queue := OnQueue(QueueRequest(0, 2, 3, 1, 4, Tables.Profile(5, None), 900, 1, 0, 6, Human), None, 1, 20);
    var t1 := Step(t, propose);
    assert t1.rows == [c];
  }

  lemma FreshIsSound(t: State)
    requires t.rows == [] && t.runner.runs == [] && t.queued == map[]
    ensures Inv(t) && ReferencesPaired(t)
  {
  }

  /** A command of supervisor 3 on the only run. */
  lemma SampleStep(t: State, r: Tables.QueuedRun, command: R.Command, reference: Option<Id>, at: Time)
    requires t.runner.runs == [r] && t.runner.clock <= at && 0 < at && !R.Closed(r) && r.leaseGeneration == 1
    requires R.NextRun(r, command, reference, 3, 1, 900, at).Some?
    ensures var e := OnRunner(R.OnTransition(R.Fence(0, 3, r.generation, 1), command, reference, 900, at));
            && Admissible(t, e) && Step(t, e).rows == t.rows && Step(t, e).runner.clock == at
            && Step(t, e).runner.runs == [R.NextRun(r, command, reference, 3, 1, 900, at).value]
  {
    hide Propose, Perform, Expire, Queue, RunPolicy, R.Claim, R.Dispatch, R.Finish, R.Heartbeat;
    hide R.ReconcileAll, R.ReconcileOne, R.Projected, R.NextRun;
  }

  /** Its run is started and run, and succeeds with a reference to its result. */
  lemma SampleSucceeds(t: State) returns (es: seq<Event>)
    requires t.runner.runs == [SAMPLE_RUN] && t.runner.clock == 20
    ensures AdmissibleRun(t, es) && Run(t, es).rows == t.rows
    ensures Run(t, es).runner.runs ==
              [SAMPLE_RUN.(status := Tables.Succeeded, generation := 4, continuation := Some(9), owner := None,
                           expires := None, recorded := Tables.Record(4, 1))]
  {
    hide Step;
    var start := OnRunner(R.OnTransition(R.Fence(0, 3, 1, 1), R.Start, None, 900, 30));
    var run := OnRunner(R.OnTransition(R.Fence(0, 3, 2, 1), R.Run, None, 900, 40));
    var succeed := OnRunner(R.OnTransition(R.Fence(0, 3, 3, 1), R.Succeed, Some(9), 900, 50));
    SampleStep(t, SAMPLE_RUN, R.Start, None, 30);
    var t1 := Step(t, start);
    SampleStep(t1, SAMPLE_RUN.(status := Tables.Starting, generation := 2), R.Run, None, 40);
    var t2 := Step(t1, run);
    SampleStep(t2, SAMPLE_RUN.(status := Tables.Running, generation := 3), R.Succeed, Some(9), 50);
    RunCons(t2, succeed, []);
    RunCons(t1, run, [succeed] + []);
    RunCons(t, start, [run] + ([succeed] + []));
    es := [start] + ([run] + ([succeed] + []));
  }

  /** A run that succeeds with a reference to its result, as the workstation runner's does, no longer
      refers to the continuation that records it, and nothing ever mends that. */
  lemma SucceedingReplacesReference() returns (t: State, es: seq<Event>)
    ensures Inv(t) && ReferencesPaired(t) && AdmissibleRun(t, es)
    ensures var t' := Run(t, es);
            && |t'.rows| == |t'.runner.runs| == 1 && QueuedRun(t'.rows[0], 0)
            && t'.runner.runs[0].status == Tables.Succeeded && t'.runner.runs[0].origin == Some(0)
              && t'.runner.runs[0].continuation == Some(9)
    ensures forall more :: AdmissibleRun(Run(t, es), more) ==> !ReferencesPaired(Run(Run(t, es), more))
  {
    hide Inv, ReferencesPaired, Step, Admissible;
    var propose, queue;
    t, propose, queue := SampleQueued();
    var rest := SampleSucceeds(Step(Step(t, propose), queue));
    RunCons(Step(t, propose), queue, rest);
    RunCons(t, propose, [queue] + rest);
    es := [propose] + ([queue] + rest);
    ContinuationsMoveForward(t, es);
    forall more | AdmissibleRun(Run(t, es), more) ensures !ReferencesPaired(Run(Run(t, es), more)) {
      ClosedMismatchStays(Run(t, es), more, 0);
    }
  }

  /** A command on an expired continuation is refused whatever generation it names, and the expiry it
      came upon is rolled back with it. */
  lemma ExpiredAcceptsNothing(t: State, q: Request, key: Option<Id>, now: Time)
    requires q.id < |t.rows| && IsExpired(t.rows[q.id], now)
    ensures !Perform(t, q, key, now).1.Accepted? && Perform(t, q, key, now).0 == WithClock(t, now)
  {
  }
}
