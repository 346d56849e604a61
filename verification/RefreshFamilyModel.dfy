/** OAuth refresh-token families: rotation, replay detection, revocation and scheduled clean-up
    (refresh-token rotation as in section 10.4 of RFC 6749 and section 4.14.2 of RFC 9700).

    The table is held as its two indexes: the rows of each (workspace, family) oldest first, and the
    family that each token ID is filed under. A mutation that throws leaves the tables as they were. */
module RefreshFamilyModel {
  import opened Base

  const MAX_SAFE := 9007199254740991
  const MAX_REFRESH_LIFETIME := 90 * 24 * 60 * 60 * 1000
  const CLEANUP_BATCH := 100

  datatype Scope = Read | Write | OfflineAccess

  datatype FamilyKey = FamilyKey(workspace: Id, family: Id)

  datatype Token = Token(
    account: Id, id: Id, secret: Id, client: Id, scopes: set<Scope>, resource: Id,
    familyExpiresAt: Option<Time>, scheduledAt: Option<Time>, generation: Option<int>,
    createdAt: Time, expiresAt: Time,
    consumedAt: Option<Time>, revokedAt: Option<Time>, rotatedTo: Option<Id>)

  /** A pending run of the scheduled clean-up. */
  datatype Job = Job(key: FamilyKey, familyExpiresAt: Time, generation: int, continuation: bool, runAt: Time)

  /** issued: every token ID ever stored; clock: the time of the last step. */
  datatype State = State(
    families: map<FamilyKey, seq<Token>>, home: map<Id, FamilyKey>,
    jobs: multiset<Job>, issued: set<Id>, clock: Time)

  const EMPTY := State(map[], map[], multiset{}, {}, 0)

  datatype IssueRequest = IssueRequest(
    now: Time, workspace: Id, account: Id, client: Id, scopes: set<Scope>, resource: Id,
    refreshId: Id, secret: Id, expiresAt: real)

  /** principal: the scopes the account holds in the workspace now, if it is still a member. */
  datatype RotateRequest = RotateRequest(
    now: Time, workspace: Id, id: Id, secret: Id, client: Id, principal: Option<set<Scope>>,
    nextId: Id, nextSecret: Id, nextExpiresAt: real)

  datatype IssueOutcome = Issued | IssueError

  datatype RotateOutcome = Rotated(scopes: set<Scope>) | Invalid | Replayed | RotateError

  datatype CleanupStatus = Missing | Retained | Cleaned

  datatype CleanupOutcome = CleanupOutcome(status: CleanupStatus, retainedRows: nat, cleanedRows: nat, hasMore: bool)

  // ---------------------------------------------------------------- deadlines and generations

  function Max(a: int, b: int): int { if a < b then b else a }

  function Min(a: int, b: int): int { if a < b then a else b }

  function Abs(x: int): nat { if x < 0 then -x else x }

  function ValidTimestamp(v: Option<Time>): Option<Time> {
    if v.Some? && 0 < v.value <= MAX_SAFE then v else None
  }

  function BoundedFamilyExpiry(createdAt: Time): Option<Time> {
    if ValidTimestamp(Some(createdAt)).Some? && createdAt + MAX_REFRESH_LIFETIME <= MAX_SAFE
    then Some(createdAt + MAX_REFRESH_LIFETIME) else None
  }

  /** The family deadline one row stands for. */
  function RowDeadline(r: Token): Option<Time> {
    var bounded := BoundedFamilyExpiry(r.createdAt);
    var claimed := ValidTimestamp(if r.familyExpiresAt.Some? then r.familyExpiresAt else Some(r.expiresAt));
    if bounded.Some? && claimed.Some? && claimed.value <= bounded.value then claimed else None
  }

  /** The deadline all the given rows stand for, if they agree on one. */
  function ResolveDeadline(rows: seq<Token>): (deadline: Option<Time>)
    ensures deadline.Some? <==> rows != [] && exists d :: forall a :: 0 <= a < |rows| ==>
              RowDeadline(rows[a]) == Some(d)
    ensures deadline.Some? ==> forall a :: 0 <= a < |rows| ==> RowDeadline(rows[a]) == deadline
  {
    if rows == [] || exists a :: 0 <= a < |rows| && RowDeadline(rows[a]) != RowDeadline(rows[0]) then None
    else RowDeadline(rows[0])
  }

  predicate IsGeneration(g: Option<int>) { g.Some? && g.value != 0 && -MAX_SAFE <= g.value <= MAX_SAFE }

  predicate IsCurrentGeneration(g: Option<int>) { IsGeneration(g) && g.value < 0 }

  function NextGeneration(g: Option<int>): int {
    var sequence := if IsGeneration(g) then Abs(g.value) else 0;
    if sequence >= MAX_SAFE then -1 else -(sequence + 1)
  }

  /** A requested expiry as the stored one: in the future, bounded, and rounded down. */
  function AdmittedExpiry(value: real, now: Time, maximum: Time): (expiry: Option<Time>)
    ensures expiry.Some? ==> now <= expiry.value <= now + maximum
  {
    if value <= now as real || value > (now + maximum) as real then None else Some(value.Floor)
  }

  function AuthorisedScopes(requested: set<Scope>, account: set<Scope>): Option<set<Scope>> {
    if Read !in requested || Read !in account || (Write in requested && Write !in account) then None
    else Some(requested)
  }

  predicate Spent(r: Token) { r.consumedAt.Some? || r.revokedAt.Some? }

  // ---------------------------------------------------------------- index reads

  /** Where a family holds the row with a given ID, or -1. */
  function Position(f: seq<Token>, id: Id): (r: int)
    ensures -1 <= r < |f|
    ensures r >= 0 ==> f[r].id == id
    ensures forall j :: r < j < |f| ==> f[j].id != id
  {
    if f == [] then -1
    else if f[|f| - 1].id == id then |f| - 1
    else Position(f[..|f| - 1], id)
  }

  predicate Stored(t: State, id: Id) {
    id in t.home && t.home[id] in t.families && Position(t.families[t.home[id]], id) >= 0
  }

  /** The row with a given ID. */
  function RowOf(t: State, id: Id): Token
    requires Stored(t, id)
  {
    t.families[t.home[id]][Position(t.families[t.home[id]], id)]
  }

  function Ids(f: seq<Token>): set<Id> { set r | r in f :: r.id }

  // ---------------------------------------------------------------- the mutations, over whole families

  predicate ScheduledFor(r: Token, deadline: Time) {
    r.familyExpiresAt == Some(deadline) && r.scheduledAt == Some(deadline) && IsCurrentGeneration(r.generation)
  }

  /** The row once it carries a current clean-up schedule for the deadline. */
  function WithSchedule(r: Token, deadline: Time): Token {
    if ScheduledFor(r, deadline) then r
    else r.(familyExpiresAt := Some(deadline), scheduledAt := Some(deadline),
      generation := Some(NextGeneration(r.generation)))
  }

  /** The job that scheduling adds, if any. */
  function ScheduleJob(k: FamilyKey, r: Token, deadline: Time, now: Time): multiset<Job> {
    if ScheduledFor(r, deadline) then multiset{}
    else multiset{Job(k, deadline, NextGeneration(r.generation), false, Max(now, deadline))}
  }

  function Revoked(r: Token, now: Time): Token { if Spent(r) then r else r.(revokedAt := Some(now)) }

  /** Revoke every row that is not spent yet. */
  function RevokeAll(f: seq<Token>, now: Time): (f': seq<Token>)
    ensures |f'| == |f|
    ensures forall a :: 0 <= a < |f| ==> f'[a] == Revoked(f[a], now)
  {
    seq(|f|, (a: nat) requires a < |f| => Revoked(f[a], now))
  }

  /** Revoke the newest row only, unless it is spent. */
  function RevokeNewest(f: seq<Token>, now: Time): seq<Token> {
    if f == [] then f else f[|f| - 1 := Revoked(f[|f| - 1], now)]
  }

  /** The refresh half of the code exchange: a new family with one row and its clean-up job. */
  function Issue(t: State, q: IssueRequest): (State, IssueOutcome) {
    var expiry := AdmittedExpiry(q.expiresAt, q.now, MAX_REFRESH_LIFETIME);
    if q.refreshId in t.home || expiry.None? then (t.(clock := q.now), IssueError)
    else
      var k := FamilyKey(q.workspace, q.refreshId);
      (State(t.families[k := [Root(q, expiry.value)]], t.home[q.refreshId := k],
             t.jobs + multiset{Job(k, expiry.value, -1, false, expiry.value)},
             t.issued + {q.refreshId}, q.now),
       Issued)
  }

  function Root(q: IssueRequest, deadline: Time): Token {
    Token(q.account, q.refreshId, q.secret, q.client, q.scopes, q.resource,
          Some(deadline), Some(deadline), Some(-1), q.now, deadline, None, None, None)
  }

  /** The row a rotation appends. */
  function Successor(row: Token, q: RotateRequest, scopes: set<Scope>, deadline: Time, requested: Time): Token {
    Token(row.account, q.nextId, q.nextSecret, row.client, scopes, row.resource,
          Some(deadline), None, None, q.now, Min(requested, deadline), None, None, None)
  }

  predicate Presents(t: State, q: RotateRequest) {
    && Stored(t, q.id)
    && t.home[q.id].workspace == q.workspace
    && RowOf(t, q.id).secret == q.secret
    && RowOf(t, q.id).client == q.client
  }

  /** May this row be rotated now, and with which scopes? */
  function Grantable(row: Token, q: RotateRequest, deadline: Time): Option<set<Scope>> {
    if row.expiresAt <= q.now || deadline <= q.now || q.principal.None? then None
    else AuthorisedScopes(row.scopes, q.principal.value)
  }

  /** Rotating a token, stated over the whole family: the deadline is the one all rows agree on, a
      replay or a refusal revokes every row, and otherwise one row is consumed and one appended. */
  function Rotate(t: State, q: RotateRequest): (State, RotateOutcome) {
    var t0 := t.(clock := q.now);
    if !Presents(t, q) then (t0, Invalid)
    else
      var k := t.home[q.id];
      var f, i := t.families[k], Position(t.families[k], q.id);
      var deadline := ResolveDeadline(f);
      if deadline.None? then (t0, Invalid)
      else
        var f1 := f[0 := WithSchedule(f[0], deadline.value)];
        var jobs1 := t.jobs + ScheduleJob(k, f[0], deadline.value, q.now);
        var revoked := t0.(families := t.families[k := RevokeAll(f1, q.now)], jobs := jobs1);
        if Spent(f[i]) then (revoked, Replayed)
        else
          var scopes := Grantable(f[i], q, deadline.value);
          if scopes.None? then (revoked, Invalid)
          else
            var requested := AdmittedExpiry(q.nextExpiresAt, q.now, MAX_REFRESH_LIFETIME);
            if q.nextId in t.home || requested.None? then (t0, RotateError)
            else
              var consumed := f1[i].(consumedAt := Some(q.now), rotatedTo := Some(q.nextId));
              var next := Successor(f[i], q, scopes.value, deadline.value, requested.value);
              (State(t.families[k := f1[i := consumed] + [next]], t.home[q.nextId := k],
                     jobs1, t.issued + {q.nextId}, q.now),
               Rotated(scopes.value))
  }

  predicate MatchesSchedule(job: Job, oldest: Token) {
    && IsCurrentGeneration(Some(job.generation))
    && oldest.scheduledAt == Some(job.familyExpiresAt)
    && oldest.generation == Some(job.generation)
  }

  /** The deadline a clean-up run goes by. */
  function CanonicalDeadline(job: Job, resolved: Option<Time>, now: Time): (deadline: Time)
    ensures resolved == Some(job.familyExpiresAt) && 0 < job.familyExpiresAt <= MAX_SAFE ==>
              deadline == job.familyExpiresAt
  {
    if job.continuation then (if ValidTimestamp(Some(job.familyExpiresAt)).Some? then job.familyExpiresAt else 0)
    else if resolved == Some(job.familyExpiresAt) then job.familyExpiresAt
    else Min(if ValidTimestamp(Some(job.familyExpiresAt)).Some? then job.familyExpiresAt else now, now)
  }

  /** The families once the n oldest rows of one are gone. */
  function ClearedFamily(families: map<FamilyKey, seq<Token>>, k: FamilyKey, n: nat): map<FamilyKey, seq<Token>>
    requires k in families && n <= |families[k]|
  {
    if n < |families[k]| then families[k := families[k][n..]] else families - {k}
  }

  /** Running a due clean-up job: it deletes the oldest rows, a batch at a time, when it is the
      family's current job or continues one. */
  function Cleanup(t: State, job: Job, now: Time): (State, CleanupOutcome) {
    var t0 := t.(jobs := t.jobs - multiset{job}, clock := now);
    if job.key !in t.families || t.families[job.key] == [] then (t0, CleanupOutcome(Missing, 0, 0, false))
    else
      var f := t.families[job.key];
      var hasMore := |f| > CLEANUP_BATCH;
      if !job.continuation && !MatchesSchedule(job, f[0])
      then (t0, CleanupOutcome(Retained, Min(|f|, CLEANUP_BATCH), 0, hasMore))
      else
        var n := Min(|f|, CLEANUP_BATCH);
        (t0.(families := ClearedFamily(t.families, job.key, n),
             home := t.home - Ids(f[..n]),
             jobs := if hasMore then t0.jobs + multiset{job.(continuation := true, runAt := now)} else t0.jobs),
         CleanupOutcome(Cleaned, 0, n, hasMore))
  }

  // ---------------------------------------------------------------- what holds between mutations

  /** Every row but the newest is consumed and points to its successor; the newest points nowhere. */
  ghost predicate Chained(f: seq<Token>) {
    && (forall a :: 0 <= a < |f| - 1 ==>
      f[a].consumedAt.Some? && f[a].revokedAt.None? && f[a].rotatedTo == Some(f[a + 1].id))
    && (f != [] ==> f[|f| - 1].consumedAt.None? && f[|f| - 1].rotatedTo.None?)
  }

  ghost predicate DistinctIds(f: seq<Token>) {
    forall a, b :: 0 <= a < b < |f| ==> f[a].id != f[b].id
  }

  /** All rows carry one deadline, no row outlives it, and creation times follow the chain. */
  ghost predicate Dated(f: seq<Token>, clock: Time) {
    && (forall a, b :: 0 <= a < b < |f| ==> f[a].createdAt <= f[b].createdAt)
    && (forall a :: 0 <= a < |f| ==>
          && f[a].createdAt <= clock
          && f[a].familyExpiresAt.Some?
          && f[a].familyExpiresAt == f[0].familyExpiresAt == RowDeadline(f[a])
          && f[a].expiresAt <= f[a].familyExpiresAt.value)
  }

  /** Only the oldest row may carry a schedule, and it is for the family deadline. */
  ghost predicate Coordinated(f: seq<Token>) {
    && (forall a :: 0 < a < |f| ==> f[a].scheduledAt.None? && f[a].generation.None?)
    && (f != [] ==>
          || (f[0].scheduledAt.None? && f[0].generation.None?)
          || (f[0].scheduledAt == f[0].familyExpiresAt && f[0].generation == Some(-1)))
  }

  ghost predicate Sound(f: seq<Token>, clock: Time) {
    f != [] && Chained(f) && DistinctIds(f) && Dated(f, clock) && Coordinated(f)
  }

  ghost predicate AllSound(t: State) { forall k :: k in t.families ==> Sound(t.families[k], t.clock) }

  /** The two indexes describe the same rows. */
  ghost predicate Indexed(t: State) {
    && (forall k, a :: k in t.families && 0 <= a < |t.families[k]| ==>
          t.families[k][a].id in t.home && t.home[t.families[k][a].id] == k)
    && (forall id :: id in t.home ==> Stored(t, id) && id in t.issued)
  }

  /** The row a family is named after, while it exists, is the oldest row of that family. */
  ghost predicate Rooted(t: State) {
    && (forall k :: k in t.families ==> k.family in t.issued && (k.family in t.home ==> t.home[k.family] == k))
    && (forall k, a :: k in t.families && 0 < a < |t.families[k]| ==> t.families[k][a].id != k.family)
  }

  /** Every job is due no earlier than the deadline it names, which is its family's. */
  ghost predicate JobsAgree(t: State) {
    forall j :: j in t.jobs ==> JobAgrees(t, j)
  }

  ghost predicate JobAgrees(t: State, j: Job) {
    && j.key.family in t.issued
    && j.generation == -1
    && j.familyExpiresAt <= j.runAt
    && (j.key in t.families && t.families[j.key] != [] ==>
      t.families[j.key][0].familyExpiresAt == Some(j.familyExpiresAt))
  }

  predicate Serves(j: Job, k: FamilyKey, oldest: Token) {
    j.key == k && (j.continuation || MatchesSchedule(j, oldest))
  }

  ghost predicate HasServingJob(jobs: multiset<Job>, k: FamilyKey, oldest: Token) {
    exists j :: j in jobs && Serves(j, k, oldest)
  }

  /** Every family has a pending job that will delete rows of it. */
  ghost predicate CleanupPending(t: State) {
    forall k :: k in t.families && t.families[k] != [] ==> HasServingJob(t.jobs, k, t.families[k][0])
  }

  ghost predicate Inv(t: State) {
    AllSound(t) && Indexed(t) && Rooted(t) && JobsAgree(t) && CleanupPending(t)
  }

  // ---------------------------------------------------------------- the fast forms

  /** Revoking the newest row alone revokes the whole family. */
  lemma RevokingNewestRevokesAll(f: seq<Token>, now: Time)
    requires Chained(f)
    ensures RevokeNewest(f, now) == RevokeAll(f, now)
    ensures forall r :: r in RevokeNewest(f, now) ==> Spent(r)
  {
    assert forall a :: 0 <= a < |f| ==> RevokeNewest(f, now)[a] == RevokeAll(f, now)[a];
  }

  /** Probing any rows of a family, the oldest among them or not, finds the deadline of all its rows. */
  lemma ProbesFindFamilyDeadline(f: seq<Token>, clock: Time, probes: seq<Token>)
    requires Sound(f, clock)
    requires probes != [] && forall a :: 0 <= a < |probes| ==> probes[a] in f
    ensures ResolveDeadline(probes) == ResolveDeadline(f) == f[0].familyExpiresAt
    ensures f[0].familyExpiresAt.Some? && 0 < f[0].familyExpiresAt.value <= MAX_SAFE
  {
    hide Chained, DistinctIds, Coordinated;
    var d := f[0].familyExpiresAt.value;
    assert forall a :: 0 <= a < |probes| ==> RowDeadline(probes[a]) == Some(d);
    assert forall a :: 0 <= a < |f| ==> RowDeadline(f[a]) == Some(d);
  }

  /** The row named like its family, where the coordinator is looked for first, is the oldest. */
  lemma RootIsOldest(t: State, k: FamilyKey)
    requires Inv(t) && k in t.families
    ensures t.families[k] != []
    ensures k.family in t.home && t.home[k.family] == k ==> Position(t.families[k], k.family) == 0
  {
    hide JobsAgree, CleanupPending, Chained, DistinctIds, Dated, Coordinated;
    if k.family in t.home && t.home[k.family] == k { assert Stored(t, k.family); }
  }

  lemma FamilyIsSound(t: State, k: FamilyKey)
    requires Inv(t) && k in t.families
    ensures Sound(t.families[k], t.clock) && t.families[k] != []
  {
    hide Indexed, Rooted, JobsAgree, CleanupPending;
  }

  /** Clearing the schedule of the oldest row does not change what a batch of deletions leaves. */
  lemma ClearingUnscheduled(families: map<FamilyKey, seq<Token>>, k: FamilyKey)
    requires k in families && families[k] != []
    ensures var f, n := families[k], Min(|families[k]|, CLEANUP_BATCH);
            var f' := f[0 := f[0].(scheduledAt := None)];
            && ClearedFamily(families[k := f'], k, n) == ClearedFamily(families, k, n)
            && Ids(f'[..n]) == Ids(f[..n])
  {
    var f := families[k];
    var f', n := f[0 := f[0].(scheduledAt := None)], Min(|f|, CLEANUP_BATCH);
    assert forall a :: 0 <= a < n ==> f'[a].id == f[a].id;
    forall id ensures id in Ids(f'[..n]) <==> id in Ids(f[..n]) {
      assert forall a :: 0 <= a < n ==> f[a] in f[..n] && f'[a] in f'[..n];
    }
    assert f'[n..] == f[n..];
  }

  // ---------------------------------------------------------------- each mutation keeps one family sound

  lemma SoundLater(f: seq<Token>, clock: Time, later: Time)
    requires Sound(f, clock) && clock <= later
    ensures Sound(f, later)
  {
  }

  lemma SchedulingKeepsSound(f: seq<Token>, clock: Time)
    requires Sound(f, clock)
    ensures Sound(f[0 := WithSchedule(f[0], f[0].familyExpiresAt.value)], clock)
    ensures ScheduledFor(WithSchedule(f[0], f[0].familyExpiresAt.value), f[0].familyExpiresAt.value)
    ensures WithSchedule(f[0], f[0].familyExpiresAt.value).generation == Some(-1)
  {
  }

  lemma RevokingKeepsSound(f: seq<Token>, clock: Time, now: Time)
    requires Sound(f, clock)
    ensures Sound(RevokeAll(f, now), clock)
  {
    var f' := RevokeAll(f, now);
    assert forall a :: 0 <= a < |f| ==> f'[a] == f[a].(revokedAt := f'[a].revokedAt);
    assert Dated(f', clock) by {
      assert forall a :: 0 <= a < |f| ==> RowDeadline(f'[a]) == RowDeadline(f[a]);
    }
  }

  /** The newest row is the only one that can still be rotated. */
  lemma OnlyNewestUnspent(f: seq<Token>, i: nat)
    requires Chained(f) && i < |f| && !Spent(f[i])
    ensures i == |f| - 1
  {
  }

  lemma RotatingKeepsSound(f: seq<Token>, clock: Time, q: RotateRequest, scopes: set<Scope>, requested: Time)
    requires Sound(f, clock) && clock <= q.now && 0 < q.now && q.now + MAX_REFRESH_LIFETIME <= MAX_SAFE
    requires !Spent(f[|f| - 1]) && forall a :: 0 <= a < |f| ==> f[a].id != q.nextId
    ensures var n := |f| - 1;
            Sound(f[n := f[n].(consumedAt := Some(q.now), rotatedTo := Some(q.nextId))]
                  + [Successor(f[n], q, scopes, f[0].familyExpiresAt.value, requested)], q.now)
  {
    var n := |f| - 1;
    var next := Successor(f[n], q, scopes, f[0].familyExpiresAt.value, requested);
    var f' := f[n := f[n].(consumedAt := Some(q.now), rotatedTo := Some(q.nextId))] + [next];
    assert RowDeadline(next) == next.familyExpiresAt == f[0].familyExpiresAt;
    assert forall a :: 0 <= a < |f| ==> RowDeadline(f'[a]) == RowDeadline(f[a]) && f'[a].id == f[a].id;
  }

  lemma DroppingKeepsSound(f: seq<Token>, clock: Time, n: nat)
    requires Sound(f, clock) && n < |f|
    ensures Sound(f[n..], clock)
  {
    var f' := f[n..];
    assert forall a :: 0 <= a < |f'| ==> f'[a] == f[n + a];
    if n > 0 { assert f'[0] == f[n]; }
  }

  // ---------------------------------------------------------------- each mutation keeps the invariant

  datatype Event = Exchange(issue: IssueRequest) | Rotation(rotate: RotateRequest) | Fire(job: Job, at: Time)

  function TimeOf(e: Event): Time {
    match e
    case Exchange(q) => q.now
    case Rotation(q) => q.now
    case Fire(_, at) => at
  }

  /** The ID of a deleted token is never offered again. */
  predicate NotReused(t: State, id: Id) { id in t.issued ==> id in t.home }

  /** What is taken for granted of each step: the clock does not go back, token IDs are not reused
      and a scheduled job runs once, when it is due. */
  predicate Admissible(t: State, e: Event) {
    && t.clock <= TimeOf(e) && 0 < TimeOf(e) && TimeOf(e) + MAX_REFRESH_LIFETIME <= MAX_SAFE
    && (match e
        case Exchange(q) => NotReused(t, q.refreshId)
        case Rotation(q) => NotReused(t, q.nextId)
        case Fire(job, at) => job in t.jobs && job.runAt <= at)
  }

  function RowsOf(t: State, k: FamilyKey): seq<Token> { if k in t.families then t.families[k] else [] }

  /** t' differs from t in family k alone: its rows keep their IDs and at most one row is appended. */
  ghost predicate Grows(t: State, t': State, k: FamilyKey) {
    var f, f' := RowsOf(t, k), RowsOf(t', k);
    && t'.families == t.families[k := f'] && f' != []
    && |f| <= |f'| <= |f| + 1
    && (forall a :: 0 <= a < |f| ==> f'[a].id == f[a].id)
    && (if |f'| == |f| then t'.home == t.home && t'.issued == t.issued
        else f'[|f|].id !in t.issued && t'.home == t.home[f'[|f|].id := k] && t'.issued == t.issued + {f'[|f|].id})
  }

  lemma GrowsIndexed(t: State, t': State, k: FamilyKey)
    requires Indexed(t) && Grows(t, t', k)
    ensures Indexed(t')
  {
    forall id | id in t'.home ensures Stored(t', id) && id in t'.issued {
      GrowsStored(t, t', k, id);
    }
  }

  lemma GrowsStored(t: State, t': State, k: FamilyKey, id: Id)
    requires Grows(t, t', k) && id in t'.home
    requires id in t.home ==> Stored(t, id) && id in t.issued
    ensures Stored(t', id) && id in t'.issued
  {
    if id in t.home {
      if t.home[id] == k {
        var a := Position(t.families[k], id);
        assert t'.families[k][a].id == id;
      }
    } else {
      assert t'.families[k][|RowsOf(t, k)|].id == id;
    }
  }

  /** A row added to an existing family never takes the name of any family; a new family is named
      after its one row. */
  lemma GrowsRooted(t: State, t': State, k: FamilyKey)
    requires Rooted(t) && Indexed(t) && Grows(t, t', k)
    requires k !in t.families ==> t'.families[k][0].id == k.family
    ensures Rooted(t')
  {
    assert RowsOf(t, k) != [] <==> k in t.families && t.families[k] != [];
    forall k', a | k' in t'.families && 0 < a < |t'.families[k']|
      ensures t'.families[k'][a].id != k'.family
    {
      if k' == k && a == |RowsOf(t, k)| { assert k in t.families; }
    }
  }

  lemma GrowsAllSound(t: State, t': State, k: FamilyKey)
    requires AllSound(t) && Grows(t, t', k) && t.clock <= t'.clock
    requires Sound(t'.families[k], t'.clock)
    ensures AllSound(t')
  {
    forall k' | k' in t'.families && k' != k ensures Sound(t'.families[k'], t'.clock) {
      SoundLater(t.families[k'], t.clock, t'.clock);
    }
  }

  lemma GrowsJobs(t: State, t': State, k: FamilyKey, added: multiset<Job>)
    requires JobsAgree(t) && CleanupPending(t) && Grows(t, t', k)
    requires t'.jobs == t.jobs + added && k.family in t'.issued
    requires RowsOf(t, k) == [] || t'.families[k][0].familyExpiresAt == RowsOf(t, k)[0].familyExpiresAt
    requires RowsOf(t, k) == [] ==> k.family !in t.issued
    requires forall j :: j in added ==>
               j.key == k && j.generation == -1 && j.familyExpiresAt <= j.runAt
                 && t'.families[k][0].familyExpiresAt == Some(j.familyExpiresAt)
    requires HasServingJob(t'.jobs, k, t'.families[k][0])
    ensures JobsAgree(t') && CleanupPending(t')
  {
    forall j | j in t'.jobs ensures JobAgrees(t', j) {
      if j in t.jobs { assert JobAgrees(t, j); }
    }
    forall k' | k' in t'.families && t'.families[k'] != [] ensures HasServingJob(t'.jobs, k', t'.families[k'][0]) {
      if k' != k {
        var j :| j in t.jobs && Serves(j, k', t.families[k'][0]);
        assert j in t'.jobs;
      }
    }
  }

  lemma LaterKeepsInv(t: State, now: Time)
    requires Inv(t) && t.clock <= now
    ensures Inv(t.(clock := now))
  {
    hide Sound, AllSound, Stored, JobAgrees;
    var t' := t.(clock := now);
    LaterAllSound(t, now);
    forall id | id in t.home ensures Stored(t', id) { StoredReads(t, t', id); }
    forall j | j in t.jobs ensures JobAgrees(t', j) { JobAgreesReads(t, t', j); }
  }

  lemma LaterAllSound(t: State, now: Time)
    requires AllSound(t) && t.clock <= now
    ensures AllSound(t.(clock := now))
  {
    forall k | k in t.families ensures Sound(t.families[k], now) { SoundLater(t.families[k], t.clock, now); }
  }

  lemma StoredReads(t: State, t': State, id: Id)
    requires t.home == t'.home && t.families == t'.families
    ensures Stored(t, id) == Stored(t', id)
  {
  }

  lemma JobAgreesReads(t: State, t': State, j: Job)
    requires t.issued == t'.issued && t.families == t'.families
    ensures JobAgrees(t, j) == JobAgrees(t', j)
  {
  }

  lemma IssueKeepsInv(t: State, q: IssueRequest)
    requires Inv(t) && Admissible(t, Exchange(q))
    ensures Inv(Issue(t, q).0)
  {
    hide Indexed, Rooted, AllSound, JobsAgree, CleanupPending;
    var (t', outcome) := Issue(t, q);
    if outcome == IssueError {
      LaterKeepsInv(t, q.now);
    } else {
      var k := FamilyKey(q.workspace, q.refreshId);
      var job := Job(k, AdmittedExpiry(q.expiresAt, q.now, MAX_REFRESH_LIFETIME).value, -1, false,
        AdmittedExpiry(q.expiresAt, q.now, MAX_REFRESH_LIFETIME).value);
      NewNameIsFree(t, k);
      assert Grows(t, t', k);
      assert job in t'.jobs && Serves(job, k, t'.families[k][0]);
      GrowsIndexed(t, t', k);
      GrowsRooted(t, t', k);
      GrowsAllSound(t, t', k);
      GrowsJobs(t, t', k, multiset{job});
    }
  }

  lemma NewNameIsFree(t: State, k: FamilyKey)
    requires Rooted(t) && k.family !in t.issued
    ensures k !in t.families
  {
  }

  /** What the specification of a rotation may rely on: the row exists and its family is sound. */
  lemma StoredFamily(t: State, id: Id)
    requires Inv(t) && id in t.home
    ensures Stored(t, id) && Sound(t.families[t.home[id]], t.clock) && t.home[id].family in t.issued
    ensures HasServingJob(t.jobs, t.home[id], t.families[t.home[id]][0])
    ensures var f := t.families[t.home[id]]; ResolveDeadline(f) == f[0].familyExpiresAt && f[0].familyExpiresAt.Some?
  {
    hide Sound;
    var f := t.families[t.home[id]];
    assert Sound(f, t.clock) && f != [];
    ProbesFindFamilyDeadline(f, t.clock, f);
  }

  /** A rotation that gets past the presentation check grows the presented family soundly. */
  lemma RotateGrows(t: State, q: RotateRequest)
    requires Inv(t) && Admissible(t, Rotation(q)) && Presents(t, q) && Rotate(t, q).1 != RotateError
    ensures var t', k := Rotate(t, q).0, t.home[q.id];
            && Grows(t, t', k) && Sound(t'.families[k], q.now)
            && t'.clock == q.now
            && t.families[k] != [] && t.families[k][0].familyExpiresAt.Some?
            && var deadline := t.families[k][0].familyExpiresAt.value;
            && var s := WithSchedule(t.families[k][0], deadline);
            && t'.families[k][0].familyExpiresAt == Some(deadline)
            && t'.families[k][0].scheduledAt == s.scheduledAt && t'.families[k][0].generation == s.generation
            && t'.jobs == t.jobs + ScheduleJob(k, t.families[k][0], deadline, q.now)
  {
    hide Inv, Chained, DistinctIds, Dated, ResolveDeadline, Position, Indexed, Rooted, AllSound, JobsAgree;
    hide CleanupPending;
    var (t', outcome) := Rotate(t, q);
    var k := t.home[q.id];
    StoredFamily(t, q.id);
    NewIdIsFree(t, q);
    var f, i := t.families[k], Position(t.families[k], q.id);
    var f1 := f[0 := WithSchedule(f[0], f[0].familyExpiresAt.value)];
    SoundLater(f, t.clock, q.now);
    SchedulingKeepsSound(f, q.now);
    if outcome.Rotated? {
      assert f1[i].id == f[i].id;
      OnlyNewestUnspent(f1, i);
      RotatingKeepsSound(f1, q.now, q, outcome.scopes,
        AdmittedExpiry(q.nextExpiresAt, q.now, MAX_REFRESH_LIFETIME).value);
    } else {
      RevokingKeepsSound(f1, q.now, q.now);
    }
  }

  lemma NewIdIsFree(t: State, q: RotateRequest)
    requires Inv(t) && NotReused(t, q.nextId)
    ensures q.nextId !in t.home ==> q.nextId !in t.issued
    ensures q.nextId !in t.home ==> forall k, a :: k in t.families && 0 <= a < |t.families[k]| ==>
              t.families[k][a].id != q.nextId
  {
  }

  lemma RotateKeepsInv(t: State, q: RotateRequest)
    requires Inv(t) && Admissible(t, Rotation(q))
    ensures Inv(Rotate(t, q).0)
  {
    hide Indexed, Rooted, AllSound, JobsAgree, CleanupPending, Sound, Grows, WithSchedule, ScheduleJob;
    var (t', outcome) := Rotate(t, q);
    LaterKeepsInv(t, q.now);
    if Presents(t, q) && outcome != RotateError {
      hide Rotate;
      StoredFamily(t, q.id);
      RotateGrows(t, q);
      var k := t.home[q.id];
      var deadline := t.families[k][0].familyExpiresAt.value;
      ServedAfterScheduling(t, k, t'.families[k][0], q.now);
      ScheduleJobShape(k, t.families[k][0], t.clock, q.now, t.families[k]);
      GrowsIndexed(t, t', k);
      GrowsRooted(t, t', k);
      GrowsAllSound(t, t', k);
      assert k.family in t'.issued by { NamesStay(t, t', k); }
      GrowsJobs(t, t', k, ScheduleJob(k, t.families[k][0], deadline, q.now));
    }
  }

  lemma NamesStay(t: State, t': State, k: FamilyKey)
    requires Grows(t, t', k) && k.family in t.issued
    ensures k.family in t'.issued
  {
  }

  lemma ScheduleJobShape(k: FamilyKey, oldest: Token, clock: Time, now: Time, f: seq<Token>)
    requires Sound(f, clock) && oldest == f[0]
    ensures forall j :: j in ScheduleJob(k, oldest, oldest.familyExpiresAt.value, now) ==>
              j.key == k && j.generation == -1 && !j.continuation
              && j.familyExpiresAt == oldest.familyExpiresAt.value <= j.runAt
  {
  }

  lemma ServedAfterScheduling(t: State, k: FamilyKey, oldest: Token, now: Time)
    requires k in t.families && Sound(t.families[k], t.clock)
    requires HasServingJob(t.jobs, k, t.families[k][0])
    requires var r := t.families[k][0];
             var s := WithSchedule(r, r.familyExpiresAt.value);
             oldest.scheduledAt == s.scheduledAt && oldest.generation == s.generation
    ensures HasServingJob(t.jobs + ScheduleJob(k, t.families[k][0], t.families[k][0].familyExpiresAt.value, now), k,
              oldest)
  {
    var r := t.families[k][0];
    var added := ScheduleJob(k, r, r.familyExpiresAt.value, now);
    if ScheduledFor(r, r.familyExpiresAt.value) {
      var j :| j in t.jobs && Serves(j, k, r);
      assert j in t.jobs + added && Serves(j, k, oldest);
    } else {
      var j := Job(k, r.familyExpiresAt.value, NextGeneration(r.generation), false, Max(now, r.familyExpiresAt.value));
      assert j in t.jobs + added && Serves(j, k, oldest);
    }
  }

  lemma ClearingIndexed(t: State, t': State, k: FamilyKey, n: nat)
    requires Indexed(t) && k in t.families && n <= |t.families[k]| && DistinctIds(t.families[k])
    requires t'.families == ClearedFamily(t.families, k, n)
    requires t'.home == t.home - Ids(t.families[k][..n]) && t'.issued == t.issued
    ensures Indexed(t')
  {
    var f := t.families[k];
    forall k', a | k' in t'.families && 0 <= a < |t'.families[k']|
      ensures t'.families[k'][a].id in t'.home && t'.home[t'.families[k'][a].id] == k'
    {
      if k' == k { assert t'.families[k][a] == f[n + a]; } else { assert t.home[t.families[k'][a].id] == k'; }
    }
    forall id | id in t'.home ensures Stored(t', id) && id in t'.issued {
      assert Stored(t, id);
      if t.home[id] == k {
        var a := Position(f, id);
        assert t'.families[k][a - n].id == id;
      }
    }
  }

  lemma ClearingRooted(t: State, t': State, k: FamilyKey, n: nat)
    requires Rooted(t) && k in t.families && n <= |t.families[k]|
    requires t'.families == ClearedFamily(t.families, k, n)
    requires t'.home == t.home - Ids(t.families[k][..n]) && t'.issued == t.issued
    ensures Rooted(t')
  {
  }

  lemma ClearingAllSound(t: State, t': State, k: FamilyKey, n: nat)
    requires AllSound(t) && k in t.families && n <= |t.families[k]| && t.clock <= t'.clock
    requires t'.families == ClearedFamily(t.families, k, n)
    ensures AllSound(t')
  {
    hide Sound;
    forall k' | k' in t'.families ensures Sound(t'.families[k'], t'.clock) {
      SoundLater(t.families[k'], t.clock, t'.clock);
      if k' == k { DroppingKeepsSound(t.families[k], t'.clock, n); }
    }
  }

  lemma FiringJobsAgree(t: State, job: Job, now: Time)
    requires JobsAgree(t) && AllSound(t) && job in t.jobs && job.runAt <= now
    ensures JobsAgree(Cleanup(t, job, now).0)
  {
    hide Chained, DistinctIds, Coordinated, RowDeadline, MatchesSchedule;
    var t' := Cleanup(t, job, now).0;
    assert JobAgrees(t, job);
    forall j | j in t'.jobs ensures JobAgrees(t', j) {
      if j in t.jobs { assert JobAgrees(t, j); }
    }
  }

  lemma FiringKeepsPending(t: State, job: Job, now: Time)
    requires CleanupPending(t) && job in t.jobs
    ensures CleanupPending(Cleanup(t, job, now).0)
  {
    hide MatchesSchedule;
    var (t', outcome) := Cleanup(t, job, now);
    forall k | k in t'.families && t'.families[k] != [] ensures HasServingJob(t'.jobs, k, t'.families[k][0]) {
      var j :| j in t.jobs && Serves(j, k, t.families[k][0]);
      if k == job.key && outcome.status == Cleaned {
        var next := job.(continuation := true, runAt := now);
        assert next in t'.jobs && Serves(next, k, t'.families[k][0]);
      } else {
        assert j != job && j in t'.jobs && Serves(j, k, t'.families[k][0]);
      }
    }
  }

  lemma CleanupKeepsInv(t: State, job: Job, now: Time)
    requires Inv(t) && Admissible(t, Fire(job, now))
    ensures Inv(Cleanup(t, job, now).0)
  {
    hide Indexed, Rooted, AllSound, JobsAgree, CleanupPending, MatchesSchedule;
    var (t', outcome) := Cleanup(t, job, now);
    FiringJobsAgree(t, job, now);
    FiringKeepsPending(t, job, now);
    if outcome.status == Cleaned {
      DistinctWithin(t, job.key);
      ClearingIndexed(t, t', job.key, outcome.cleanedRows);
      ClearingRooted(t, t', job.key, outcome.cleanedRows);
      ClearingAllSound(t, t', job.key, outcome.cleanedRows);
    } else {
      LaterKeepsInv(t, now);
      SameRowsSameIndexes(t, t');
    }
  }

  lemma DistinctWithin(t: State, k: FamilyKey)
    requires AllSound(t) && k in t.families
    ensures DistinctIds(t.families[k])
  {
  }

  lemma SameRowsSameIndexes(t: State, t': State)
    requires Inv(t) && t'.families == t.families && t'.home == t.home && t'.issued == t.issued && t.clock <= t'.clock
    ensures AllSound(t') && Indexed(t') && Rooted(t')
  {
    hide Sound, JobAgrees, Stored;
    LaterAllSound(t, t'.clock);
    forall id | id in t.home ensures Stored(t', id) { StoredReads(t, t', id); }
  }

  // ---------------------------------------------------------------- whole runs

  function Step(t: State, e: Event): State {
    match e
    case Exchange(q) => Issue(t, q).0
    case Rotation(q) => Rotate(t, q).0
    case Fire(job, at) => Cleanup(t, job, at).0
  }

  function Run(t: State, es: seq<Event>): State
    decreases |es|
  {
    if es == [] then t else Run(Step(t, es[0]), es[1..])
  }

  predicate AdmissibleRun(t: State, es: seq<Event>)
    decreases |es|
  {
    es == [] || (Admissible(t, es[0]) && AdmissibleRun(Step(t, es[0]), es[1..]))
  }

  lemma StepKeepsInv(t: State, e: Event)
    requires Inv(t) && Admissible(t, e)
    ensures Inv(Step(t, e))
  {
    hide Inv, Issue, Rotate, Cleanup;
    match e
    case Exchange(q) => IssueKeepsInv(t, q);
    case Rotation(q) => RotateKeepsInv(t, q);
    case Fire(job, at) => CleanupKeepsInv(t, job, at);
  }

  lemma StepTakesTime(t: State, e: Event)
    ensures Step(t, e).clock == TimeOf(e)
  {
    hide ResolveDeadline, AdmittedExpiry, Grantable, MatchesSchedule;
  }

  /** In every reachable state, every family is one chain whose newest row alone is usable. */
  lemma {:induction false} RunKeepsInv(es: seq<Event>, t: State)
    requires Inv(t) && AdmissibleRun(t, es)
    ensures Inv(Run(t, es))
    decreases |es|
  {
    hide Inv, Step, Admissible;
    if es != [] {
      StepKeepsInv(t, es[0]);
      RunKeepsInv(es[1..], Step(t, es[0]));
    }
  }

  /** What no mutation changes of a row that stays. */
  ghost predicate SameGrant(r: Token, r': Token) {
    r'.(familyExpiresAt := r.familyExpiresAt, scheduledAt := r.scheduledAt, generation := r.generation,
        consumedAt := r.consumedAt, revokedAt := r.revokedAt, rotatedTo := r.rotatedTo) == r
    && (Spent(r) ==> Spent(r'))
  }

  /** A row that is there before and after a step stays in its family and keeps its grant; once
      spent it stays spent. */
  lemma StepKeepsRows(t: State, e: Event, id: Id)
    requires Inv(t) && Admissible(t, e)
    requires id in t.home && id in Step(t, e).home
    ensures Stored(t, id) && Stored(Step(t, e), id)
    ensures Step(t, e).home[id] == t.home[id] && SameGrant(RowOf(t, id), RowOf(Step(t, e), id))
  {
    hide Sound, CleanupPending, JobsAgree;
    StepKeepsInv(t, e);
    var t' := Step(t, e);
    var k := t.home[id];
    assert Stored(t, id) && Stored(t', id);
    var a := Position(t.families[k], id);
    match e
    case Exchange(q) =>
      assert k != FamilyKey(q.workspace, q.refreshId) || t'.families == t.families;
    case Rotation(q) =>
      RotateKeepsRow(t, q, id);
    case Fire(job, at) =>
      CleanupKeepsRow(t, job, at, id);
  }

  lemma AtPosition(f: seq<Token>, a: nat)
    requires DistinctIds(f) && a < |f|
    ensures Position(f, f[a].id) == a
  {
  }

  lemma RotateRows(t: State, q: RotateRequest, a: nat)
    requires Presents(t, q) && a < |t.families[t.home[q.id]]|
    ensures var f' := RowsOf(Rotate(t, q).0, t.home[q.id]);
            a < |f'| && SameGrant(t.families[t.home[q.id]][a], f'[a])
  {
    hide Position, ResolveDeadline, Grantable, AdmittedExpiry;
  }

  lemma RotateKeepsRow(t: State, q: RotateRequest, id: Id)
    requires Inv(t) && Admissible(t, Rotation(q)) && Stored(t, id)
    ensures var t' := Rotate(t, q).0;
            Stored(t', id) && t'.home[id] == t.home[id] && SameGrant(RowOf(t, id), RowOf(t', id))
  {
    hide Inv, Sound, Position, SameGrant, ResolveDeadline, Grantable, AdmittedExpiry;
    RotateKeepsInv(t, q);
    NewIdIsFree(t, q);
    var t' := Rotate(t, q).0;
    var k := t.home[id];
    var a := Position(t.families[k], id);
    if Presents(t, q) && k == t.home[q.id] {
      RotateRows(t, q, a);
      SameGrantSameId(RowOf(t, id), t'.families[k][a]);
    } else {
      SameGrantItself(RowOf(t, id));
    }
    DistinctFamilies(t');
    AtPosition(t'.families[k], a);
  }

  lemma SameGrantSameId(r: Token, r': Token)
    requires SameGrant(r, r')
    ensures r'.id == r.id
  {
  }

  lemma SameGrantItself(r: Token)
    ensures SameGrant(r, r)
  {
  }

  lemma DistinctFamilies(t: State)
    requires Inv(t)
    ensures forall k :: k in t.families ==> DistinctIds(t.families[k])
  {
    hide Indexed, Rooted, JobsAgree, CleanupPending;
  }

  lemma NotCleared(f: seq<Token>, n: nat, a: nat)
    requires n <= |f| && a < |f| && f[a].id !in Ids(f[..n])
    ensures a >= n
  {
  }

  lemma CleanupKeepsRow(t: State, job: Job, at: Time, id: Id)
    requires Inv(t) && Admissible(t, Fire(job, at)) && Stored(t, id) && id in Cleanup(t, job, at).0.home
    ensures var t' := Cleanup(t, job, at).0;
            Stored(t', id) && t'.home[id] == t.home[id] && RowOf(t, id) == RowOf(t', id)
  {
    hide Inv, Sound, Position, MatchesSchedule, Ids;
    CleanupKeepsInv(t, job, at);
    var (t', outcome) := Cleanup(t, job, at);
    var k := t.home[id];
    var f := t.families[k];
    var a := Position(f, id);
    if k == job.key && outcome.status == Cleaned {
      var n := outcome.cleanedRows;
      NotCleared(f, n, a);
      assert t'.families[k][a - n] == f[a];
      DistinctFamilies(t');
      AtPosition(t'.families[k], a - n);
    }
  }

  // ---------------------------------------------------------------- replay is final

  /** The ID was issued and cannot be rotated any more. */
  ghost predicate Used(t: State, id: Id) {
    id in t.issued && (Stored(t, id) ==> Spent(RowOf(t, id)))
  }

  /** The family was started and none of its rows can be rotated any more. */
  ghost predicate Dead(t: State, k: FamilyKey) {
    k.family in t.issued && forall id :: id in t.home && t.home[id] == k ==> Used(t, id)
  }

  lemma StepKeepsIssued(t: State, e: Event)
    requires Inv(t) && Admissible(t, e)
    ensures t.issued <= Step(t, e).issued
    ensures forall id :: id in Step(t, e).home ==> id in t.home || id !in t.issued
  {
    hide Sound, CleanupPending, JobsAgree, Rooted, Grantable, ResolveDeadline, AdmittedExpiry, MatchesSchedule;
  }

  lemma StepKeepsUsed(t: State, e: Event, id: Id)
    requires Inv(t) && Admissible(t, e) && Used(t, id)
    ensures Used(Step(t, e), id)
  {
    hide Inv, Step, Admissible;
    StepKeepsIssued(t, e);
    if id in Step(t, e).home {
      StepKeepsRows(t, e, id);
    }
  }

  lemma UsedNeverRotates(t: State, q: RotateRequest)
    requires Inv(t) && Used(t, q.id)
    ensures !Rotate(t, q).1.Rotated?
  {
  }

  /** A row that a step adds joins a family that was alive. */
  lemma NewRowsJoinLiveFamilies(t: State, e: Event, id: Id)
    requires Inv(t) && Admissible(t, e)
    requires id in Step(t, e).home && id !in t.home
    ensures !Dead(t, Step(t, e).home[id])
  {
    hide Sound, CleanupPending, JobsAgree, ResolveDeadline, AdmittedExpiry, MatchesSchedule;
    match e
    case Exchange(q) =>
    case Rotation(q) =>
      if Dead(t, t.home[q.id]) { UsedNeverRotates(t, q); }
    case Fire(job, at) =>
  }

  lemma StepKeepsDead(t: State, e: Event, k: FamilyKey)
    requires Inv(t) && Admissible(t, e) && Dead(t, k)
    ensures Dead(Step(t, e), k)
  {
    hide Inv, Step, Admissible, Used;
    StepKeepsIssued(t, e);
    forall id | id in Step(t, e).home && Step(t, e).home[id] == k ensures Used(Step(t, e), id) {
      if id in t.home {
        StepKeepsRows(t, e, id);
        StepKeepsUsed(t, e, id);
      } else {
        NewRowsJoinLiveFamilies(t, e, id);
      }
    }
  }

  lemma {:induction false} RunKeepsDead(t: State, es: seq<Event>, k: FamilyKey)
    requires Inv(t) && AdmissibleRun(t, es) && Dead(t, k)
    ensures Dead(Run(t, es), k)
    decreases |es|
  {
    hide Inv, Step, Admissible, Dead;
    if es != [] {
      StepKeepsInv(t, es[0]);
      StepKeepsDead(t, es[0], k);
      RunKeepsDead(Step(t, es[0]), es[1..], k);
    }
  }

  lemma {:induction false} RunKeepsUsed(t: State, es: seq<Event>, id: Id)
    requires Inv(t) && AdmissibleRun(t, es) && Used(t, id)
    ensures Used(Run(t, es), id)
    decreases |es|
  {
    hide Inv, Step, Admissible, Used;
    if es != [] {
      StepKeepsInv(t, es[0]);
      StepKeepsUsed(t, es[0], id);
      RunKeepsUsed(Step(t, es[0]), es[1..], id);
    }
  }

  lemma ReplayKills(t: State, q: RotateRequest)
    requires Inv(t) && Admissible(t, Rotation(q)) && Rotate(t, q).1 == Replayed
    ensures q.id in t.home && Dead(Rotate(t, q).0, t.home[q.id])
  {
    hide Inv, Sound, AdmittedExpiry, Grantable, ResolveDeadline;
    RotateKeepsInv(t, q);
    var t', k := Rotate(t, q).0, t.home[q.id];
    StoredFamily(t, q.id);
    assert forall r :: r in t'.families[k] ==> Spent(r);
    forall id | id in t'.home && t'.home[id] == k ensures Used(t', id) { StoredIsIssued(t', id); }
  }

  lemma StoredIsIssued(t: State, id: Id)
    requires Inv(t) && id in t.home
    ensures Stored(t, id) && id in t.issued
  {
    hide AllSound, Rooted, JobsAgree, CleanupPending;
  }

  /** Once a rotation of a family is answered `replayed`, no later rotation of that family succeeds. */
  lemma ReplayIsFinal(t: State, q: RotateRequest, es: seq<Event>, later: RotateRequest)
    requires Inv(t) && Admissible(t, Rotation(q)) && Rotate(t, q).1 == Replayed
    requires AdmissibleRun(Rotate(t, q).0, es)
    requires var t' := Run(Rotate(t, q).0, es); later.id in t'.home && t'.home[later.id] == t.home[q.id]
    ensures !Rotate(Run(Rotate(t, q).0, es), later).1.Rotated?
  {
    hide Inv, Rotate, Admissible, Used;
    RotateKeepsInv(t, q);
    ReplayKills(t, q);
    RunKeepsDead(Rotate(t, q).0, es, t.home[q.id]);
    RunKeepsInv(es, Rotate(t, q).0);
    UsedNeverRotates(Run(Rotate(t, q).0, es), later);
  }

  /** No token is ever exchanged twice. */
  lemma RotatesOnce(t: State, q: RotateRequest, es: seq<Event>, later: RotateRequest)
    requires Inv(t) && Admissible(t, Rotation(q)) && Rotate(t, q).1.Rotated?
    requires AdmissibleRun(Rotate(t, q).0, es) && later.id == q.id
    ensures !Rotate(Run(Rotate(t, q).0, es), later).1.Rotated?
  {
    hide Inv, Rotate, Admissible;
    RotateKeepsInv(t, q);
    assert Used(Rotate(t, q).0, q.id) by { RotatedIsUsed(t, q); }
    RunKeepsUsed(Rotate(t, q).0, es, q.id);
    RunKeepsInv(es, Rotate(t, q).0);
    UsedNeverRotates(Run(Rotate(t, q).0, es), later);
  }

  lemma RotatedIsUsed(t: State, q: RotateRequest)
    requires Inv(t) && Admissible(t, Rotation(q)) && Rotate(t, q).1.Rotated?
    ensures Used(Rotate(t, q).0, q.id)
  {
    hide CleanupPending, JobsAgree, Chained, Dated, Coordinated, RowDeadline, ResolveDeadline, Grantable;
    hide AdmittedExpiry;
    RotateKeepsInv(t, q);
    var t', k := Rotate(t, q).0, t.home[q.id];
    var i := Position(t.families[k], q.id);
    AtPosition(t'.families[k], i);
  }

  // ---------------------------------------------------------------- clean-up is safe and complete

  /** A row is only ever deleted by a clean-up job, at or after the deadline of its family. */
  lemma DeletedOnlyAfterDeadline(t: State, e: Event, id: Id)
    requires Inv(t) && Admissible(t, e)
    requires id in t.home && id !in Step(t, e).home
    ensures Stored(t, id) && e.Fire? && t.home[id] == e.job.key
    ensures RowOf(t, id).familyExpiresAt.Some? && RowOf(t, id).familyExpiresAt.value <= e.at
    ensures RowOf(t, id).expiresAt <= e.at
  {
    hide Inv, Sound, ResolveDeadline, Grantable, AdmittedExpiry, MatchesSchedule;
    StoredIsIssued(t, id);
    if e.Fire? {
      FamilyOfClearedRow(t, e.job, id);
      RowOutlived(t, id);
      JobMeetsDeadline(t, e.job);
    }
  }

  lemma FamilyOfClearedRow(t: State, job: Job, id: Id)
    requires Inv(t) && job.key in t.families && id in Ids(t.families[job.key])
    ensures id in t.home && t.home[id] == job.key
  {
    hide AllSound, Rooted, JobsAgree, CleanupPending;
  }

  lemma RowOutlived(t: State, id: Id)
    requires Inv(t) && Stored(t, id)
    ensures var f := t.families[t.home[id]];
            f[0].familyExpiresAt.Some? && RowOf(t, id).familyExpiresAt == f[0].familyExpiresAt
            && RowOf(t, id).expiresAt <= f[0].familyExpiresAt.value
  {
    hide Indexed, Rooted, JobsAgree, CleanupPending;
  }

  lemma JobMeetsDeadline(t: State, job: Job)
    requires Inv(t) && job in t.jobs && job.key in t.families && t.families[job.key] != []
    ensures t.families[job.key][0].familyExpiresAt == Some(job.familyExpiresAt) && job.familyExpiresAt <= job.runAt
            && job.generation == -1
  {
    hide AllSound, Indexed, Rooted, CleanupPending;
    assert JobAgrees(t, job);
  }

  /** Firing a family's pending job, and then the continuations it leaves, empties the family after
      one firing for each batch of rows. */
  lemma {:induction false} FiringsEmptyFamily(t: State, job: Job, now: Time) returns (fires: seq<Event>)
    requires Inv(t) && Admissible(t, Fire(job, now))
    requires job.key in t.families && t.families[job.key] != [] && Serves(job, job.key, t.families[job.key][0])
    ensures |fires| == (|t.families[job.key]| + CLEANUP_BATCH - 1) / CLEANUP_BATCH
    ensures forall i :: 0 <= i < |fires| ==> fires[i].Fire? && fires[i].job.key == job.key && fires[i].at == now
    ensures AdmissibleRun(t, fires)
    ensures job.key !in Run(t, fires).families
    decreases |t.families[job.key]|
  {
    hide Inv, MatchesSchedule;
    var e := Fire(job, now);
    var (t', outcome) := Cleanup(t, job, now);
    StepKeepsInv(t, e);
    if outcome.hasMore {
      var next := job.(continuation := true, runAt := now);
      assert next in t'.jobs;
      var rest := FiringsEmptyFamily(t', next, now);
      fires := [e] + rest;
      assert fires[1..] == rest;
    } else {
      fires := [e];
      assert fires[1..] == [];
    }
  }

  // ---------------------------------------------------------------- the laws are about something

  const SAMPLE_KEY := FamilyKey(1, 7)
  const SAMPLE_ROOT := Token(2, 7, 8, 9, {Read, OfflineAccess}, 3, Some(5000), Some(5000), Some(-1), 1000, 5000, None,
    None, None)

  /** A family of one token, issued at 1000 and ending at 5000. */
  lemma SampleIssued() returns (t: State)
    ensures Inv(t) && t.families == map[SAMPLE_KEY := [SAMPLE_ROOT]] && t.home == map[7 := SAMPLE_KEY]
    ensures t.issued == {7} && t.clock == 1000 && t.jobs == multiset{Job(SAMPLE_KEY, 5000, -1, false, 5000)}
  {
    hide Inv;
    var q := IssueRequest(1000, 1, 2, 9, {Read, OfflineAccess}, 3, 7, 8, 5000.0);
    EmptyIsSound();
    IssueKeepsInv(EMPTY, q);
    t := Issue(EMPTY, q).0;
  }

  lemma EmptyIsSound()
    ensures Inv(EMPTY)
  {
  }

  function SampleRotation(next: Id, now: Time): RotateRequest {
    RotateRequest(now, 1, 7, 8, 9, Some({Read, OfflineAccess}), next, 8, 4000.0)
  }

  /** Its token is rotated. */
  lemma SampleRotated() returns (t: State)
    ensures Inv(t) && t.clock == 2000 && t.issued == {7, 17}
    ensures 7 in t.home && t.home[7] == SAMPLE_KEY && SAMPLE_KEY in t.families
    ensures var f := t.families[SAMPLE_KEY];
            |f| == 2 && f[0].id == 7 && f[1].id == 17 && f[0].secret == 8 && f[0].client == 9 && Spent(f[0])
  {
    hide Inv, ResolveDeadline;
    var t0 := SampleIssued();
    var q := SampleRotation(17, 2000);
    var f := t0.families[SAMPLE_KEY];
    assert f == [SAMPLE_ROOT] && Position(f, 7) == 0;
    StoredFamily(t0, 7);
    assert ResolveDeadline(f) == Some(5000);
    assert AuthorisedScopes({Read, OfflineAccess}, {Read, OfflineAccess}) == Some({Read, OfflineAccess});
    assert AdmittedExpiry(4000.0, 2000, MAX_REFRESH_LIFETIME) == Some(4000);
    RotateKeepsInv(t0, q);
    t := Rotate(t0, q).0;
  }

  /** Presenting it a second time is answered `replayed`. */
  lemma SampleReplay() returns (t: State, q: RotateRequest)
    ensures Inv(t) && Admissible(t, Rotation(q)) && Rotate(t, q).1 == Replayed
    ensures q.id in Rotate(t, q).0.home && Rotate(t, q).0.home[q.id] == t.home[q.id]
  {
    hide Inv, Rotate;
    t := SampleRotated();
    q := SampleRotation(18, 3000);
    SampleSecond(t, q);
  }

  lemma SampleSecond(t: State, q: RotateRequest)
    requires Inv(t) && q == SampleRotation(18, 3000) && t.clock <= 3000
    requires 7 in t.home && t.home[7] == SAMPLE_KEY && SAMPLE_KEY in t.families && 18 !in t.issued
    requires var f := t.families[SAMPLE_KEY];
             |f| == 2 && f[0].id == 7 && f[1].id == 17 && f[0].secret == 8 && f[0].client == 9 && Spent(f[0])
    ensures Admissible(t, Rotation(q)) && Rotate(t, q).1 == Replayed && Rotate(t, q).0.home == t.home
  {
    hide Inv, ResolveDeadline, Grantable, AdmittedExpiry;
    var f := t.families[SAMPLE_KEY];
    assert f[..1][0] == f[0];
    assert Position(f, 7) == 0;
    StoredFamily(t, 7);
  }

  /** When its time is over its clean-up deletes it. */
  lemma SampleCleanup() returns (t: State, e: Event)
    ensures Inv(t) && Admissible(t, e) && 7 in t.home && 7 !in Step(t, e).home
  {
    t := SampleIssued();
    e := Fire(Job(SAMPLE_KEY, 5000, -1, false, 5000), 5000);
    assert t.families[SAMPLE_KEY][..1] == [SAMPLE_ROOT];
    assert SAMPLE_ROOT in t.families[SAMPLE_KEY][..1];
    assert 7 in Ids(t.families[SAMPLE_KEY][..1]);
  }
}
