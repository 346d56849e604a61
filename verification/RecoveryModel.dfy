/** Recovery of runner adapter commands: a command is reserved by the authority that owns a run's
    live lease, and may be taken over only after that authority is gone for good. */
module RecoveryModel {
  import opened Base
  import opened RunnerTables
  import R = RunnerModel

  datatype Request = Request(
    project: Id, item: Id, run: Id, runGeneration: int, leaseGeneration: int, actor: Id,
    runnerType: Id, profile: Profile, requestFingerprint: Id, key: Id)

  datatype Settlement = Settlement(outcome: Id, at: Time)

  datatype Command = Command(id: Id, fingerprint: Id, request: Request, reservedAt: Time,
    settlement: Option<Settlement>)

  datatype RecoveryRequest = RecoveryRequest(commandId: Id, fingerprint: Id, actor: Id, leaseSeconds: int, key: Id)

  /** command: the row of the command that is recovered. */
  datatype Recovery = Recovery(command: nat, generation: int, request: RecoveryRequest, claimedAt: Time,
    expiresAt: Time)

  datatype State = State(runner: R.State, commands: seq<Command>, recoveries: seq<Recovery>, clock: Time)

  datatype ReserveOutcome = Reserved | ReserveReplayed(command: Command) | ReserveRefused

  datatype SettleOutcome = Settled | SettleReplayed | SettleRefused

  datatype RecoverOutcome = Recovered(recovery: Recovery) | RecoverReplayed(recovery: Recovery) | RecoverRefused

  // ---------------------------------------------------------------- index reads

  /** The row of the command with a given ID, or -1. */
  function ById(s: seq<Command>, id: Id): (r: int)
    ensures -1 <= r < |s|
    ensures r >= 0 ==> s[r].id == id
    ensures r < 0 ==> forall j :: 0 <= j < |s| ==> s[j].id != id
  {
    if s == [] then -1 else if s[|s| - 1].id == id then |s| - 1 else ById(s[..|s| - 1], id)
  }

  /** The row of the command reserved under an idempotency key, or -1. */
  function ByKey(s: seq<Command>, key: Id): (r: int)
    ensures -1 <= r < |s|
    ensures r >= 0 ==> s[r].request.key == key
    ensures r < 0 ==> forall j :: 0 <= j < |s| ==> s[j].request.key != key
  {
    if s == [] then -1 else if s[|s| - 1].request.key == key then |s| - 1 else ByKey(s[..|s| - 1], key)
  }

  /** The newest recovery claimed under an idempotency key, or -1. */
  function RecoveryByKey(s: seq<Recovery>, key: Id): (r: int)
    ensures -1 <= r < |s|
    ensures r >= 0 ==> s[r].request.key == key
    ensures forall j :: r < j < |s| ==> s[j].request.key != key
  {
    if s == [] then -1 else if s[|s| - 1].request.key == key then |s| - 1 else RecoveryByKey(s[..|s| - 1], key)
  }

  /** The recovery of a command with the highest generation, or -1. */
  function Latest(s: seq<Recovery>, command: nat): (r: int)
    ensures -1 <= r < |s|
    ensures r >= 0 ==> s[r].command == command
    ensures forall j :: 0 <= j < |s| && s[j].command == command ==> r >= 0 && s[j].generation <= s[r].generation
  {
    if s == [] then -1
    else
      var r := Latest(s[..|s| - 1], command);
      var last := s[|s| - 1];
      if last.command == command && (r < 0 || s[r].generation <= last.generation) then |s| - 1 else r
  }

  /** How many recoveries a command has had. */
  function Count(s: seq<Recovery>, command: nat): nat {
    if s == [] then 0 else Count(s[..|s| - 1], command) + (if s[|s| - 1].command == command then 1 else 0)
  }

  // ---------------------------------------------------------------- the mutations

  /** The run is exactly as the authority last saw it, and the authority's lease is live. */
  predicate Holds(r: QueuedRun, q: Request, now: Time) {
    r.generation == q.runGeneration && R.LiveLease(r, q.actor, q.leaseGeneration, now)
  }

  predicate Authorised(r: QueuedRun, q: Request, now: Time) {
    && r.project == q.project && r.item == q.item
    && r.runnerType == q.runnerType && r.profile == q.profile
    && Holds(r, q, now)
  }

  function Reserve(t: State, id: Id, fingerprint: Id, q: Request, now: Time): (State, ReserveOutcome) {
    var t0 := t.(clock := now);
    var prior := ByKey(t.commands, q.key);
    if prior >= 0 then (t0, if t.commands[prior].request == q then ReserveReplayed(t.commands[prior])
      else ReserveRefused)
    else if ById(t.commands, id) >= 0 || q.run >= |t.runner.runs| || !Authorised(t.runner.runs[q.run], q, now) then
      (t0, ReserveRefused)
    else (t0.(commands := t.commands + [Command(id, fingerprint, q, now, None)]), Reserved)
  }

  function Settle(t: State, id: Id, fingerprint: Id, outcome: Id, now: Time): (State, SettleOutcome) {
    var t0 := t.(clock := now);
    var c := ById(t.commands, id);
    if c < 0 || t.commands[c].fingerprint != fingerprint then (t0, SettleRefused)
    else if t.commands[c].settlement.Some?
    then (t0, if t.commands[c].settlement.value.outcome == outcome then SettleReplayed else SettleRefused)
    else (t0.(commands := t.commands[c := t.commands[c].(settlement := Some(Settlement(outcome, now)))]), Settled)
  }

  /** Taking over a command whose original authority is gone. */
  function Recover(t: State, q: RecoveryRequest, now: Time): (State, RecoverOutcome) {
    var t0 := t.(clock := now);
    var prior := RecoveryByKey(t.recoveries, q.key);
    if prior >= 0 then (t0, if t.recoveries[prior].request == q then RecoverReplayed(t.recoveries[prior])
      else RecoverRefused)
    else
      var c := ById(t.commands, q.commandId);
      if c < 0 || t.commands[c].settlement.Some? || t.commands[c].fingerprint != q.fingerprint
         || t.commands[c].request.run >= |t.runner.runs|
      then (t0, RecoverRefused)
      else
        var run := t.runner.runs[t.commands[c].request.run];
        var live := run.expires.Some? && run.expires.value > now;
        var latest := Latest(t.recoveries, c);
        if Holds(run, t.commands[c].request, now)
           || (live && run.owner != Some(q.actor))
           || (latest >= 0 && t.recoveries[latest].expiresAt > now)
        then (t0, RecoverRefused)
        else
          var generation := (if latest >= 0 then t.recoveries[latest].generation else 0) + 1;
          var recovery := Recovery(c, generation, q, now, now + q.leaseSeconds * 1000);
          (t0.(recoveries := t.recoveries + [recovery]), Recovered(recovery))
  }

  datatype Event =
    | OnRunner(event: R.Event)
    | OnReserve(id: Id, fingerprint: Id, request: Request, at: Time)
    | OnSettle(id: Id, fingerprint: Id, outcome: Id, at: Time)
    | OnRecover(recovery: RecoveryRequest, at: Time)

  function TimeOf(e: Event): Time {
    match e
    case OnRunner(event) => R.TimeOf(event)
    case OnReserve(_, _, _, at) => at
    case OnSettle(_, _, _, at) => at
    case OnRecover(_, at) => at
  }

  function Step(t: State, e: Event): State {
    match e
    case OnRunner(event) => t.(runner := R.Step(t.runner, event), clock := TimeOf(e))
    case OnReserve(id, fingerprint, q, at) => Reserve(t, id, fingerprint, q, at).0
    case OnSettle(id, fingerprint, outcome, at) => Settle(t, id, fingerprint, outcome, at).0
    case OnRecover(q, at) => Recover(t, q, at).0
  }

  predicate Admissible(t: State, e: Event) {
    && t.clock <= TimeOf(e)
    && (e.OnRecover? ==> 0 < e.recovery.leaseSeconds)
  }

  function RunAll(t: State, es: seq<Event>): State
    decreases |es|
  {
    if es == [] then t else RunAll(Step(t, es[0]), es[1..])
  }

  predicate AdmissibleRun(t: State, es: seq<Event>)
    decreases |es|
  {
    es == [] || (Admissible(t, es[0]) && AdmissibleRun(Step(t, es[0]), es[1..]))
  }

  // ---------------------------------------------------------------- what holds between mutations

  ghost predicate DistinctCommands(s: seq<Command>) {
    forall i, j :: 0 <= i < j < |s| ==> s[i].id != s[j].id && s[i].request.key != s[j].request.key
  }

  /** Every command names a run, which is at the authority's generation or beyond. */
  ghost predicate CommandsBound(t: State) {
    forall c :: 0 <= c < |t.commands| ==>
      && t.commands[c].request.run < |t.runner.runs|
      && t.commands[c].request.runGeneration <= t.runner.runs[t.commands[c].request.run].generation
      && t.commands[c].reservedAt <= t.clock
  }

  /** The recoveries of a command are numbered 1, 2, 3, ... */
  ghost predicate Numbered(s: seq<Recovery>) {
    forall i :: 0 <= i < |s| ==> s[i].generation == 1 + Count(s[..i], s[i].command)
  }

  /** The ownership intervals of one command follow each other without overlap. */
  ghost predicate Disjoint(s: seq<Recovery>) {
    forall i, j :: 0 <= i < j < |s| && s[i].command == s[j].command ==>
      s[i].claimedAt < s[i].expiresAt <= s[j].claimedAt
  }

  /** No recovery starts after its command is settled, nor before it was reserved. */
  ghost predicate WithinCommand(t: State) {
    forall i :: 0 <= i < |t.recoveries| ==> var r := t.recoveries[i];
      && r.command < |t.commands| && r.claimedAt < r.expiresAt && r.claimedAt <= t.clock
      && t.commands[r.command].reservedAt <= r.claimedAt
      && (t.commands[r.command].settlement.Some? ==> r.claimedAt <= t.commands[r.command].settlement.value.at)
  }

  /** The authority behind a recovered command no longer holds the run. */
  ghost predicate AuthorityGone(t: State) {
    forall i :: 0 <= i < |t.recoveries| && t.recoveries[i].command < |t.commands| ==>
      Gone(t, t.commands[t.recoveries[i].command].request)
  }

  ghost predicate Gone(t: State, q: Request) {
    && q.run < |t.runner.runs| && q.runGeneration <= t.runner.runs[q.run].generation
    && !Holds(t.runner.runs[q.run], q, t.clock)
  }

  ghost predicate Inv(t: State) {
    && DistinctCommands(t.commands) && CommandsBound(t)
    && Numbered(t.recoveries) && Disjoint(t.recoveries) && WithinCommand(t)
    && AuthorityGone(t)
  }

  // ---------------------------------------------------------------- the original authority never returns

  /** No write of a run, by whichever module, gives an authority back what it has lost. */
  lemma WriteKeepsGone(r: QueuedRun, r': QueuedRun, e: R.Event, q: Request, before: Time)
    requires R.Written(r, r', e) && before <= R.TimeOf(e)
    requires q.runGeneration <= r.generation && !Holds(r, q, before)
    ensures q.runGeneration <= r'.generation && !Holds(r', q, R.TimeOf(e))
  {
  }

  lemma StepKeepsGone(t: State, e: Event, q: Request)
    requires Admissible(t, e) && Gone(t, q)
    ensures Gone(Step(t, e), q)
  {
    hide R.Step, R.Written;
    if e.OnRunner? {
      R.StepWrites(t.runner, e.event, q.run);
      WriteKeepsGone(t.runner.runs[q.run], R.Step(t.runner, e.event).runs[q.run], e.event, q, t.clock);
    }
  }

  lemma {:induction false} RunKeepsGone(t: State, es: seq<Event>, q: Request)
    requires AdmissibleRun(t, es) && Gone(t, q)
    ensures Gone(RunAll(t, es), q)
    decreases |es|
  {
    hide Step, Admissible, Gone;
    if es != [] {
      StepKeepsGone(t, es[0], q);
      RunKeepsGone(Step(t, es[0]), es[1..], q);
    }
  }

  lemma HoldsOnlyBefore(r: QueuedRun, q: Request, now: Time, later: Time)
    requires !Holds(r, q, now) && now <= later
    ensures !Holds(r, q, later)
  {
  }

  // ---------------------------------------------------------------- each mutation keeps the invariant

  lemma NumberedPrefix(s: seq<Recovery>, n: nat)
    requires Numbered(s) && n <= |s|
    ensures Numbered(s[..n])
  {
    forall i | 0 <= i < n ensures s[..n][i].generation == 1 + Count(s[..n][..i], s[..n][i].command) {
      assert s[..n][..i] == s[..i];
    }
  }

  /** The recovery with the highest generation is the command's newest, numbered by how many there are. */
  lemma {:induction false} LatestIsCount(s: seq<Recovery>, c: nat)
    requires Numbered(s)
    ensures Latest(s, c) < 0 <==> Count(s, c) == 0
    ensures Latest(s, c) >= 0 ==> s[Latest(s, c)].generation == Count(s, c)
    ensures forall j :: Latest(s, c) < j < |s| ==> s[j].command != c
  {
    if s != [] {
      var n := |s| - 1;
      NumberedPrefix(s, n);
      LatestIsCount(s[..n], c);
      if s[n].command == c { assert s[n].generation == 1 + Count(s[..n], c); }
    }
  }

  lemma AppendNumbered(s: seq<Recovery>, r: Recovery)
    requires Numbered(s) && r.generation == 1 + Count(s, r.command)
    ensures Numbered(s + [r])
  {
    var s' := s + [r];
    forall i | 0 <= i < |s'| ensures s'[i].generation == 1 + Count(s'[..i], s'[i].command) {
      if i < |s| { assert s'[..i] == s[..i]; } else { assert s'[..i] == s; }
    }
  }

  lemma AppendDisjoint(s: seq<Recovery>, r: Recovery)
    requires Numbered(s) && Disjoint(s)
    requires Latest(s, r.command) >= 0 ==>
               s[Latest(s, r.command)].claimedAt < s[Latest(s, r.command)].expiresAt <= r.claimedAt
    ensures Disjoint(s + [r])
  {
    hide Latest, Count, Numbered;
    LatestIsCount(s, r.command);
  }

  lemma RecoverKeepsInv(t: State, q: RecoveryRequest, now: Time)
    requires Inv(t) && Admissible(t, OnRecover(q, now))
    ensures Inv(Recover(t, q, now).0)
  {
    hide Latest, Count, ById, RecoveryByKey, Numbered, Disjoint, DistinctCommands, Holds;
    var (t', outcome) := Recover(t, q, now);
    LaterKeepsGone(t, now);
    if outcome.Recovered? {
      var r := outcome.recovery;
      LatestIsCount(t.recoveries, r.command);
      AppendNumbered(t.recoveries, r);
      AppendDisjoint(t.recoveries, r);
    }
  }

  lemma LaterKeepsGone(t: State, now: Time)
    requires AuthorityGone(t) && t.clock <= now
    ensures AuthorityGone(t.(clock := now))
  {
    forall i | 0 <= i < |t.recoveries| && t.recoveries[i].command < |t.commands|
      ensures Gone(t.(clock := now), t.commands[t.recoveries[i].command].request)
    {
      var q := t.commands[t.recoveries[i].command].request;
      assert Gone(t, q);
      HoldsOnlyBefore(t.runner.runs[q.run], q, t.clock, now);
    }
  }

  lemma ReserveKeepsInv(t: State, id: Id, fingerprint: Id, q: Request, now: Time)
    requires Inv(t) && t.clock <= now
    ensures Inv(Reserve(t, id, fingerprint, q, now).0)
  {
    hide Numbered, Disjoint, ById, ByKey;
    LaterKeepsGone(t, now);
    var (t', outcome) := Reserve(t, id, fingerprint, q, now);
    forall i | 0 <= i < |t'.recoveries| && t'.recoveries[i].command < |t'.commands|
      ensures Gone(t', t'.commands[t'.recoveries[i].command].request)
    {
      assert t.recoveries[i].command < |t.commands|;
      assert Gone(t.(clock := now), t.commands[t.recoveries[i].command].request);
    }
  }

  lemma SettleKeepsInv(t: State, id: Id, fingerprint: Id, outcome: Id, now: Time)
    requires Inv(t) && t.clock <= now
    ensures Inv(Settle(t, id, fingerprint, outcome, now).0)
  {
    hide Numbered, Disjoint, ById, Holds;
    LaterKeepsGone(t, now);
    var t' := Settle(t, id, fingerprint, outcome, now).0;
    assert forall c :: 0 <= c < |t.commands| ==> t'.commands[c].request == t.commands[c].request;
    forall i | 0 <= i < |t'.recoveries| && t'.recoveries[i].command < |t'.commands|
      ensures Gone(t', t'.commands[t'.recoveries[i].command].request)
    {
      assert Gone(t.(clock := now), t.commands[t.recoveries[i].command].request);
    }
  }

  lemma RunnerStepKeepsInv(t: State, e: R.Event)
    requires Inv(t) && Admissible(t, OnRunner(e))
    ensures Inv(Step(t, OnRunner(e)))
  {
    hide Numbered, Disjoint, DistinctCommands, R.Step, Gone;
    var t' := Step(t, OnRunner(e));
    forall c | 0 <= c < |t.commands|
      ensures t.commands[c].request.run < |t'.runner.runs|
      ensures t.commands[c].request.runGeneration <= t'.runner.runs[t.commands[c].request.run].generation
    {
      R.StepWrites(t.runner, e, t.commands[c].request.run);
    }
    forall i | 0 <= i < |t'.recoveries| && t'.recoveries[i].command < |t'.commands|
      ensures Gone(t', t'.commands[t'.recoveries[i].command].request)
    {
      StepKeepsGone(t, OnRunner(e), t.commands[t.recoveries[i].command].request);
    }
  }

  lemma StepKeepsInv(t: State, e: Event)
    requires Inv(t) && Admissible(t, e)
    ensures Inv(Step(t, e))
  {
    hide Inv;
    match e
    case OnRunner(event) => RunnerStepKeepsInv(t, event);
    case OnReserve(id, fingerprint, q, at) => ReserveKeepsInv(t, id, fingerprint, q, at);
    case OnSettle(id, fingerprint, outcome, at) => SettleKeepsInv(t, id, fingerprint, outcome, at);
    case OnRecover(q, at) => RecoverKeepsInv(t, q, at);
  }

  /** In every reachable state the recoveries of a command are numbered without gaps, own it in
      disjoint intervals, and none starts after settlement. */
  lemma {:induction false} RunKeepsInv(t: State, es: seq<Event>)
    requires Inv(t) && AdmissibleRun(t, es)
    ensures Inv(RunAll(t, es))
    decreases |es|
  {
    hide Inv, Step, Admissible;
    if es != [] {
      StepKeepsInv(t, es[0]);
      RunKeepsInv(Step(t, es[0]), es[1..]);
    }
  }

  /** Once a recovery of a command is granted, the authority that reserved it is never live again,
      whatever any module does to the run afterwards. */
  lemma RecoveredAuthorityNeverReturns(t: State, q: RecoveryRequest, now: Time, es: seq<Event>, later: Time)
    requires Inv(t) && Admissible(t, OnRecover(q, now)) && Recover(t, q, now).1.Recovered?
    requires AdmissibleRun(Recover(t, q, now).0, es)
    requires RunAll(Recover(t, q, now).0, es).clock <= later
    ensures var original := t.commands[ById(t.commands, q.commandId)].request;
            var t' := RunAll(Recover(t, q, now).0, es);
            original.run < |t'.runner.runs| && !Holds(t'.runner.runs[original.run], original, later)
  {
    hide Inv, Holds, Latest, Admissible;
    var t1 := Recover(t, q, now).0;
    var original := t.commands[ById(t.commands, q.commandId)].request;
    BoundCommand(t, ById(t.commands, q.commandId));
    assert Gone(t1, original);
    RunKeepsGone(t1, es, original);
    var t' := RunAll(t1, es);
    HoldsOnlyBefore(t'.runner.runs[original.run], original, t'.clock, later);
  }

  lemma BoundCommand(t: State, c: int)
    requires Inv(t) && 0 <= c < |t.commands|
    ensures t.commands[c].request.run < |t.runner.runs|
    ensures t.commands[c].request.runGeneration <= t.runner.runs[t.commands[c].request.run].generation
  {
    hide DistinctCommands, Numbered, Disjoint, WithinCommand, AuthorityGone;
  }

  // ---------------------------------------------------------------- a command is dispatched and settled once

  /** What no mutation changes of a command. */
  predicate CommandLater(c: Command, c': Command) {
    c' == c.(settlement := c'.settlement) && (c.settlement.Some? ==> c' == c)
  }

  lemma StepKeepsCommands(t: State, e: Event, c: nat)
    requires c < |t.commands|
    ensures c < |Step(t, e).commands| && CommandLater(t.commands[c], Step(t, e).commands[c])
  {
    hide R.Step, ById, ByKey, RecoveryByKey, Latest, Holds;
  }

  lemma {:induction false} RunKeepsCommands(t: State, es: seq<Event>, c: nat)
    requires c < |t.commands|
    ensures c < |RunAll(t, es).commands| && CommandLater(t.commands[c], RunAll(t, es).commands[c])
    decreases |es|
  {
    hide Step;
    if es != [] {
      StepKeepsCommands(t, es[0], c);
      RunKeepsCommands(Step(t, es[0]), es[1..], c);
    }
  }

  /** Only the first reservation under a key authorises a dispatch, for ever. */
  lemma DispatchAuthorisedOnce(t: State, id: Id, fingerprint: Id, q: Request, now: Time, es: seq<Event>, id': Id,
          fingerprint': Id, q': Request, now': Time)
    requires Reserve(t, id, fingerprint, q, now).1 == Reserved
    requires q'.key == q.key || id' == id
    ensures Reserve(RunAll(Reserve(t, id, fingerprint, q, now).0, es), id', fingerprint', q', now').1 != Reserved
  {
    hide Authorised;
    RunKeepsCommands(Reserve(t, id, fingerprint, q, now).0, es, |t.commands|);
  }

  /** A settlement is final, and closes its command to recovery. */
  lemma SettlementIsFinal(t: State, es: seq<Event>, c: nat, q: RecoveryRequest, now: Time)
    requires Inv(t) && AdmissibleRun(t, es) && c < |t.commands| && t.commands[c].settlement.Some?
             && q.commandId == t.commands[c].id
    ensures c < |RunAll(t, es).commands| && RunAll(t, es).commands[c] == t.commands[c]
    ensures !Recover(RunAll(t, es), q, now).1.Recovered?
  {
    hide CommandsBound, Numbered, Disjoint, WithinCommand, AuthorityGone;
    RunKeepsCommands(t, es, c);
    RunKeepsInv(t, es);
  }
}
