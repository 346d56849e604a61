/** OAuth clients, authorization codes and refresh tokens together: two modules register clients and
    create codes, and neither a code nor a token may outlive its client.

    Clients and codes are held by external ID. In which order expired rows are swept is left open:
    the clients swept and the codes swept are parameters, constrained only to be expired and few. */
module OAuthClientModel {
  import opened Base
  import F = RefreshFamilyModel

  const MAX_CLIENTS := 1000
  const MAX_CODE_LIFETIME := 10 * 60 * 1000
  const UNUSED_LIFETIME := 24 * 60 * 60 * 1000
  const CLEANUP_BATCH := 100

  datatype Metadata = Metadata(name: Id, redirects: set<Id>, refreshGrant: bool)

  datatype LifecycleState = UnusedState | UsedState

  datatype Client = Client(
    workspace: Id, metadata: Metadata, lifecycle: Option<LifecycleState>,
    unusedExpiresAt: Option<Time>, scheduledAt: Option<Time>, generation: Option<int>, firstUsedAt: Option<Time>)

  datatype Kind = Legacy | Unused(expiresAt: Time, generation: int) | Used(firstUsedAt: Time) | Malformed

  datatype Code = Code(
    workspace: Id, account: Id, secret: Id, client: Id, redirect: Id, challenge: Id,
    scopes: set<F.Scope>, resource: Id, expiresAt: Time)

  /** A pending run of the unused-client clean-up, due at unusedExpiresAt. */
  datatype Job = Job(workspace: Id, client: Id, unusedExpiresAt: Time, generation: int)

  datatype State = State(clients: map<Id, Client>, codes: map<Id, Code>, tokens: F.State, jobs: multiset<Job>,
    clock: Time)

  const EMPTY := State(map[], map[], F.EMPTY, multiset{}, 0)

  datatype CodeRequest = CodeRequest(
    workspace: Id, client: Id, redirect: Id, challenge: Id, scopes: set<F.Scope>, resource: Id,
    id: Id, secret: Id, expiresAt: real, account: Id, principal: Option<set<F.Scope>>)

  datatype ExchangeRequest = ExchangeRequest(
    workspace: Id, code: Id, secret: Id, client: Id, redirect: Id, challenge: Id, principal: Option<set<F.Scope>>,
    refreshId: Id, refreshSecret: Id, refreshExpiresAt: real)

  datatype RegisterOutcome = Registered | Limit | Retryable | RegistrationConflict | RegistrationExpired

  datatype ReconcileOutcome = Missing | Unchanged | Repaired

  datatype Outcome = Granted(scopes: set<F.Scope>) | NoGrant | Refused

  datatype CleanupOutcome = CleanupMissing | Retained | RetainedBlocked | Cleaned

  // ---------------------------------------------------------------- lifecycle

  predicate SafeTimestamp(v: Option<Time>) { v.Some? && 0 <= v.value <= F.MAX_SAFE }

  predicate PositiveGeneration(v: Option<int>) { v.Some? && 0 < v.value <= F.MAX_SAFE }

  function Classify(c: Client): Kind {
    if c.lifecycle.None? && c.unusedExpiresAt.None? && c.scheduledAt.None? && c.generation.None?
      && c.firstUsedAt.None? then Legacy
    else if c.lifecycle == Some(UnusedState) && SafeTimestamp(c.unusedExpiresAt) && c.scheduledAt == c.unusedExpiresAt
            && PositiveGeneration(c.generation) && c.firstUsedAt.None?
    then Unused(c.unusedExpiresAt.value, c.generation.value)
    else if c.lifecycle == Some(UsedState) && SafeTimestamp(c.firstUsedAt)
            && c.unusedExpiresAt.None? && c.scheduledAt.None? && c.generation.None?
    then Used(c.firstUsedAt.value)
    else Malformed
  }

  function MarkedUsed(c: Client, now: Time): Client {
    c.(lifecycle := Some(UsedState), firstUsedAt := if SafeTimestamp(c.firstUsedAt) then c.firstUsedAt else Some(now),
       unusedExpiresAt := None, scheduledAt := None, generation := None)
  }

  // ---------------------------------------------------------------- reads

  ghost predicate CodeNames(t: State, workspace: Id, client: Id) {
    exists id :: id in t.codes && t.codes[id].workspace == workspace && t.codes[id].client == client
  }

  ghost predicate TokenNames(t: State, workspace: Id, client: Id) {
    exists k, a :: k in t.tokens.families && 0 <= a < |t.tokens.families[k]| && k.workspace == workspace
      && t.tokens.families[k][a].client == client
  }

  ghost predicate HasReferences(t: State, workspace: Id, client: Id) {
    CodeNames(t, workspace, client) || TokenNames(t, workspace, client)
  }

  function WorkspaceClients(clients: map<Id, Client>, workspace: Id): set<Id> {
    set id | id in clients && clients[id].workspace == workspace
  }

  predicate ExpiredUnused(c: Client, workspace: Id, now: Time) {
    c.workspace == workspace && c.lifecycle == Some(UnusedState) && c.unusedExpiresAt.Some?
      && c.unusedExpiresAt.value <= now
  }

  /** A sweep reads expired unused clients, at most one more than a batch, and all of them if fewer. */
  ghost predicate IsSweep(clients: map<Id, Client>, workspace: Id, now: Time, candidates: seq<Id>) {
    && |candidates| <= CLEANUP_BATCH + 1
    && (forall a, b :: 0 <= a < b < |candidates| ==> candidates[a] != candidates[b])
    && (forall a :: 0 <= a < |candidates| ==>
      candidates[a] in clients && ExpiredUnused(clients[candidates[a]], workspace, now))
    && (|candidates| <= CLEANUP_BATCH ==> forall id :: id in clients && ExpiredUnused(clients[id], workspace, now) ==>
      id in candidates)
  }

  predicate ExpiredCodes(t: State, ids: set<Id>, now: Time) {
    |ids| <= 100 && forall id :: id in ids ==> id in t.codes && t.codes[id].expiresAt <= now
  }

  // ---------------------------------------------------------------- the mutations

  /** What becomes of an unused client whose time is over: it stays, as used, while anything names it. */
  ghost function Retire(t: State, id: Id, now: Time): State
    requires id in t.clients
  {
    if HasReferences(t, t.clients[id].workspace, id) then t.(clients := t.clients[id := MarkedUsed(t.clients[id], now)])
    else t.(clients := t.clients - {id})
  }

  ghost function Sweep(t: State, candidates: seq<Id>, now: Time): State
    decreases |candidates|
  {
    if candidates == [] then t
    else
      var before := Sweep(t, candidates[..|candidates| - 1], now);
      var id := candidates[|candidates| - 1];
      if id in before.clients then Retire(before, id, now) else before
  }

  function TakeBatch(candidates: seq<Id>): seq<Id> {
    if |candidates| <= CLEANUP_BATCH then candidates else candidates[..CLEANUP_BATCH]
  }

  ghost function Register(t: State, workspace: Id, id: Id, metadata: Metadata, candidates: seq<Id>,
          now: Time): (State, RegisterOutcome) {
    var t0 := t.(clock := now);
    if id in t.clients then
      var c := t.clients[id];
      if c.workspace != workspace || c.metadata != metadata || Classify(c).Malformed? then (t0, RegistrationConflict)
      else if Classify(c).Unused? && Classify(c).expiresAt <= now then
        if HasReferences(t, workspace, id) then (t0.(clients := t.clients[id := MarkedUsed(c, now)]), Registered)
        else (t0, RegistrationExpired)
      else (t0, Registered)
    else
      var t1 := Sweep(t0, TakeBatch(candidates), now);
      if |WorkspaceClients(t1.clients, workspace)| >= MAX_CLIENTS then
        (t1, if |candidates| > CLEANUP_BATCH then Retryable else Limit)
      else
        var expires := now + UNUSED_LIFETIME;
        var c := Client(workspace, metadata, Some(UnusedState), Some(expires), Some(expires), Some(1), None);
        (t1.(clients := t1.clients[id := c], jobs := t1.jobs + multiset{Job(workspace, id, expires, 1)}), Registered)
  }

  /** Registration by the other module: no lifecycle, no sweep. */
  function RegisterLegacy(t: State, workspace: Id, id: Id, metadata: Metadata, now: Time): (State, RegisterOutcome) {
    var t0 := t.(clock := now);
    if id in t.clients then (t0, RegistrationConflict)
    else if |WorkspaceClients(t.clients, workspace)| >= MAX_CLIENTS then (t0, Limit)
    else (t0.(clients := t.clients[id := Client(workspace, metadata, None, None, None, None, None)]), Registered)
  }

  ghost function ReconcileLifecycle(t: State, workspace: Id, id: Id, now: Time): (State, ReconcileOutcome) {
    var t0 := t.(clock := now);
    if id !in t.clients || t.clients[id].workspace != workspace then (t0, Missing)
    else if Classify(t.clients[id]).Used? || !HasReferences(t, workspace, id) then (t0, Unchanged)
    else (t0.(clients := t.clients[id := MarkedUsed(t.clients[id], now)]), Repaired)
  }

  predicate Available(c: Client, now: Time) {
    var k := Classify(c);
    k.Legacy? || k.Used? || (k.Unused? && k.expiresAt > now)
  }

  /** May the client have this code? */
  function GrantableCode(t: State, q: CodeRequest, now: Time): Option<Code> {
    if q.client !in t.clients || t.clients[q.client].workspace != q.workspace
      || q.redirect !in t.clients[q.client].metadata.redirects || q.principal.None? then None
    else
      var scopes := F.AuthorisedScopes(q.scopes, q.principal.value);
      var expiry := F.AdmittedExpiry(q.expiresAt, now, MAX_CODE_LIFETIME);
      if scopes.None? || (F.OfflineAccess in scopes.value && !t.clients[q.client].metadata.refreshGrant)
        || q.id in t.codes || expiry.None? then None
      else Some(Code(q.workspace, q.account, q.secret, q.client, q.redirect, q.challenge, scopes.value, q.resource,
        expiry.value))
  }

  /** Creating a code; the lifecycle module also demands an available client and marks it used. */
  function CreateCode(t: State, q: CodeRequest, lifecycle: bool, swept: set<Id>, now: Time): (State, Outcome) {
    var t0 := t.(clock := now);
    var code := GrantableCode(t, q, now);
    if code.None? || (lifecycle && !Available(t.clients[q.client], now)) then (t0, Refused)
    else
      var c := t.clients[q.client];
      (t0.(codes := (t.codes - swept)[q.id := code.value],
           clients := if lifecycle && !Classify(c).Used? then t.clients[q.client := MarkedUsed(c, now)] else t.clients),
       Granted(code.value.scopes))
  }

  function IssueFor(code: Code, q: ExchangeRequest, scopes: set<F.Scope>, now: Time): F.IssueRequest {
    F.IssueRequest(now, code.workspace, code.account, code.client, scopes, code.resource, q.refreshId, q.refreshSecret,
      q.refreshExpiresAt)
  }

  /** What a presented code grants, if anything. */
  function CodeGrants(code: Code, q: ExchangeRequest): Option<set<F.Scope>> {
    if code.secret != q.secret || code.client != q.client || code.redirect != q.redirect
      || code.challenge != q.challenge || q.principal.None?
    then None
    else F.AuthorisedScopes(code.scopes, q.principal.value)
  }

  /** Exchanging a code consumes it, whatever comes of it, unless it is another workspace's. */
  function ExchangeCode(t: State, q: ExchangeRequest, now: Time): (State, Outcome) {
    var t0 := t.(clock := now);
    if q.code !in t.codes then (t0, NoGrant)
    else
      var code := t.codes[q.code];
      var consumed := t0.(codes := t.codes - {q.code});
      if code.workspace != q.workspace || code.expiresAt <= now then
        (if code.expiresAt <= now then consumed else t0, NoGrant)
      else if CodeGrants(code, q).None? then (consumed, NoGrant)
      else
        var scopes := CodeGrants(code, q).value;
        if F.OfflineAccess in scopes then
          var (tokens, outcome) := F.Issue(t.tokens, IssueFor(code, q, scopes, now));
          if outcome == F.IssueError then (t0.(tokens := tokens), Refused)
          else (consumed.(tokens := tokens), Granted(scopes))
        else (consumed, Granted(scopes))
  }

  ghost function CleanupUnused(t: State, job: Job, now: Time): (State, CleanupOutcome) {
    var t0 := t.(clock := now, jobs := t.jobs - multiset{job});
    if job.client !in t.clients || t.clients[job.client].workspace != job.workspace then (t0, CleanupMissing)
    else if Classify(t.clients[job.client]) != Unused(job.unusedExpiresAt, job.generation) then (t0, Retained)
    else (Retire(t0, job.client, now), if HasReferences(t, job.workspace, job.client) then RetainedBlocked else Cleaned)
  }

  datatype Event =
    | OnRegister(workspace: Id, id: Id, metadata: Metadata, candidates: seq<Id>, at: Time)
    | OnRegisterLegacy(workspace: Id, id: Id, metadata: Metadata, at: Time)
    | OnReconcile(workspace: Id, id: Id, at: Time)
    | OnCreateCode(request: CodeRequest, lifecycle: bool, swept: set<Id>, at: Time)
    | OnExchange(exchange: ExchangeRequest, at: Time)
    | OnTokens(event: F.Event)
    | OnCleanup(job: Job, at: Time)

  function TimeOf(e: Event): Time { if e.OnTokens? then F.TimeOf(e.event) else e.at }

  ghost function Step(t: State, e: Event): State {
    match e
    case OnRegister(workspace, id, metadata, candidates, at) => Register(t, workspace, id, metadata, candidates, at).0
    case OnRegisterLegacy(workspace, id, metadata, at) => RegisterLegacy(t, workspace, id, metadata, at).0
    case OnReconcile(workspace, id, at) => ReconcileLifecycle(t, workspace, id, at).0
    case OnCreateCode(q, lifecycle, swept, at) => CreateCode(t, q, lifecycle, swept, at).0
    case OnExchange(q, at) => ExchangeCode(t, q, at).0
    case OnTokens(event) => t.(tokens := F.Step(t.tokens, event), clock := F.TimeOf(event))
    case OnCleanup(job, at) => CleanupUnused(t, job, at).0
  }

  /** What is taken for granted: the clock, unused token IDs, jobs that run once and when due. Tokens
      are issued by the code exchange only. */
  ghost predicate Admissible(t: State, e: Event) {
    && t.clock <= TimeOf(e) && 0 < TimeOf(e) && TimeOf(e) + F.MAX_REFRESH_LIFETIME <= F.MAX_SAFE
    && match e
       case OnRegister(workspace, _, _, candidates, at) => IsSweep(t.clients, workspace, at, candidates)
       case OnCreateCode(_, _, swept, at) => ExpiredCodes(t, swept, at)
       case OnExchange(q, _) => F.NotReused(t.tokens, q.refreshId)
       case OnTokens(event) => !event.Exchange? && F.Admissible(t.tokens, event)
       case OnCleanup(job, at) => job in t.jobs && job.unusedExpiresAt <= at
       case _ => true
  }

  // ---------------------------------------------------------------- what holds between mutations

  predicate Named(t: State, workspace: Id, client: Id) {
    client in t.clients && t.clients[client].workspace == workspace
  }

  /** Every code and every refresh token names a client of its workspace. */
  ghost predicate References(t: State) {
    && (forall id :: id in t.codes ==> Named(t, t.codes[id].workspace, t.codes[id].client))
    && (forall k, a :: k in t.tokens.families && 0 <= a < |t.tokens.families[k]| ==>
      Named(t, k.workspace, t.tokens.families[k][a].client))
  }

  /** No client is malformed, and an unused one has a pending clean-up that matches it. */
  ghost predicate Lifecycles(t: State) {
    forall id :: id in t.clients ==> LifecycleOk(t, id)
  }

  ghost predicate LifecycleOk(t: State, id: Id)
    requires id in t.clients
  {
    var k := Classify(t.clients[id]);
    !k.Malformed? && (k.Unused? ==> Job(t.clients[id].workspace, id, k.expiresAt, k.generation) in t.jobs)
  }

  ghost predicate WithinLimit(t: State) { forall w :: |WorkspaceClients(t.clients, w)| <= MAX_CLIENTS }

  ghost predicate Inv(t: State) {
    F.Inv(t.tokens) && t.tokens.clock <= t.clock && 0 <= t.clock && References(t) && Lifecycles(t) && WithinLimit(t)
  }

  // ---------------------------------------------------------------- each mutation keeps the invariant

  lemma MarkingIsUsed(c: Client, now: Time)
    requires 0 <= now <= F.MAX_SAFE
    ensures Classify(MarkedUsed(c, now)).Used? && MarkedUsed(c, now).workspace == c.workspace
  {
  }

  lemma MarkKeepsInv(t: State, id: Id, now: Time)
    requires Inv(t) && id in t.clients && 0 <= now <= F.MAX_SAFE
    ensures Inv(t.(clients := t.clients[id := MarkedUsed(t.clients[id], now)]))
  {
    hide F.Inv, Classify, MarkedUsed;
    MarkingIsUsed(t.clients[id], now);
    var t' := t.(clients := t.clients[id := MarkedUsed(t.clients[id], now)]);
    forall other | other in t'.clients ensures LifecycleOk(t', other) {
      if other != id { assert LifecycleOk(t, other); }
    }
    forall w ensures |WorkspaceClients(t'.clients, w)| <= MAX_CLIENTS {
      assert WorkspaceClients(t'.clients, w) == WorkspaceClients(t.clients, w);
    }
  }

  /** Only a client that nothing names may go. */
  lemma DeleteKeepsInv(t: State, id: Id)
    requires Inv(t) && id in t.clients && !HasReferences(t, t.clients[id].workspace, id)
    ensures Inv(t.(clients := t.clients - {id}))
  {
    hide F.Inv, Classify;
    var t' := t.(clients := t.clients - {id});
    forall code | code in t.codes ensures Named(t', t.codes[code].workspace, t.codes[code].client) {
      assert Named(t, t.codes[code].workspace, t.codes[code].client);
    }
    forall k, a | k in t.tokens.families && 0 <= a < |t.tokens.families[k]|
      ensures Named(t', k.workspace, t.tokens.families[k][a].client)
    {
      assert Named(t, k.workspace, t.tokens.families[k][a].client);
    }
    forall other | other in t'.clients ensures LifecycleOk(t', other) { assert LifecycleOk(t, other); }
    forall w ensures |WorkspaceClients(t'.clients, w)| <= MAX_CLIENTS {
      assert WorkspaceClients(t'.clients, w) == WorkspaceClients(t.clients, w) - {id};
    }
  }

  lemma RetireKeepsInv(t: State, id: Id, now: Time)
    requires Inv(t) && id in t.clients && 0 <= now <= F.MAX_SAFE
    ensures Inv(Retire(t, id, now))
  {
    hide Inv, HasReferences;
    if HasReferences(t, t.clients[id].workspace, id) { MarkKeepsInv(t, id, now); } else { DeleteKeepsInv(t, id); }
  }

  lemma {:induction false} SweepKeepsInv(t: State, candidates: seq<Id>, now: Time)
    requires Inv(t) && 0 <= now <= F.MAX_SAFE
    ensures Inv(Sweep(t, candidates, now))
    ensures var t' := Sweep(t, candidates, now);
            t'.codes == t.codes && t'.tokens == t.tokens && t'.jobs == t.jobs && t'.clock == t.clock
              && t'.clients.Keys <= t.clients.Keys
    decreases |candidates|
  {
    hide Inv, HasReferences;
    if candidates != [] {
      var before := Sweep(t, candidates[..|candidates| - 1], now);
      SweepKeepsInv(t, candidates[..|candidates| - 1], now);
      var id := candidates[|candidates| - 1];
      if id in before.clients { RetireKeepsInv(before, id, now); }
    }
  }

  lemma InsertKeepsInv(t: State, id: Id, c: Client, added: multiset<Job>)
    requires Inv(t) && id !in t.clients && |WorkspaceClients(t.clients, c.workspace)| < MAX_CLIENTS
    requires !Classify(c).Malformed?
    requires Classify(c).Unused? ==> Job(c.workspace, id, Classify(c).expiresAt, Classify(c).generation) in added
    ensures Inv(t.(clients := t.clients[id := c], jobs := t.jobs + added))
  {
    hide F.Inv, Classify, WithinLimit;
    var t' := t.(clients := t.clients[id := c], jobs := t.jobs + added);
    forall other | other in t'.clients ensures LifecycleOk(t', other) {
      if other != id { assert LifecycleOk(t, other); }
    }
    InsertWithinLimit(t, t', id, c);
  }

  lemma InsertWithinLimit(t: State, t': State, id: Id, c: Client)
    requires WithinLimit(t) && id !in t.clients && |WorkspaceClients(t.clients, c.workspace)| < MAX_CLIENTS
    requires t'.clients == t.clients[id := c]
    ensures WithinLimit(t')
  {
    forall w ensures |WorkspaceClients(t'.clients, w)| <= MAX_CLIENTS {
      if w == c.workspace { assert WorkspaceClients(t'.clients, w) == WorkspaceClients(t.clients, w) + {id}; }
      else { assert WorkspaceClients(t'.clients, w) == WorkspaceClients(t.clients, w); }
    }
  }

  lemma LaterKeepsInv(t: State, now: Time)
    requires Inv(t) && t.clock <= now
    ensures Inv(t.(clock := now))
  {
    hide F.Inv, Classify;
    forall id | id in t.clients ensures LifecycleOk(t.(clock := now), id) { assert LifecycleOk(t, id); }
  }

  lemma RegisterKeepsInv(t: State, workspace: Id, id: Id, metadata: Metadata, candidates: seq<Id>, now: Time)
    requires Inv(t) && Admissible(t, OnRegister(workspace, id, metadata, candidates, now))
    ensures Inv(Register(t, workspace, id, metadata, candidates, now).0)
  {
    hide Inv, HasReferences, IsSweep, Sweep, MarkedUsed;
    LaterKeepsInv(t, now);
    var t0 := t.(clock := now);
    if id in t.clients {
      MarkKeepsInv(t0, id, now);
    } else {
      SweepKeepsInv(t0, TakeBatch(candidates), now);
      var t1 := Sweep(t0, TakeBatch(candidates), now);
      if |WorkspaceClients(t1.clients, workspace)| < MAX_CLIENTS {
        var expires := now + UNUSED_LIFETIME;
        var c := Client(workspace, metadata, Some(UnusedState), Some(expires), Some(expires), Some(1), None);
        InsertKeepsInv(t1, id, c, multiset{Job(workspace, id, expires, 1)});
      }
    }
  }

  lemma RegisterLegacyKeepsInv(t: State, workspace: Id, id: Id, metadata: Metadata, now: Time)
    requires Inv(t) && t.clock <= now
    ensures Inv(RegisterLegacy(t, workspace, id, metadata, now).0)
  {
    hide Inv;
    LaterKeepsInv(t, now);
    if RegisterLegacy(t, workspace, id, metadata, now).1.Registered? {
      InsertKeepsInv(t.(clock := now), id, Client(workspace, metadata, None, None, None, None, None), multiset{});
      assert t.jobs + multiset{} == t.jobs;
    }
  }

  lemma CodesKeepInv(t: State, codes: map<Id, Code>)
    requires Inv(t)
    requires forall id :: id in codes ==> Named(t, codes[id].workspace, codes[id].client)
    ensures Inv(t.(codes := codes))
  {
    hide F.Inv, Classify;
    forall id | id in t.clients ensures LifecycleOk(t.(codes := codes), id) { assert LifecycleOk(t, id); }
  }

  lemma CreateCodeKeepsInv(t: State, q: CodeRequest, lifecycle: bool, swept: set<Id>, now: Time)
    requires Inv(t) && Admissible(t, OnCreateCode(q, lifecycle, swept, now))
    ensures Inv(CreateCode(t, q, lifecycle, swept, now).0)
  {
    hide Inv, Classify, MarkedUsed, ExpiredCodes;
    LaterKeepsInv(t, now);
    var (t', outcome) := CreateCode(t, q, lifecycle, swept, now);
    if outcome.Granted? {
      CodesAreNamed(t);
      var t0 := t.(clock := now);
      if t'.clients != t.clients { MarkKeepsInv(t0, q.client, now); }
      MarkingIsUsedOrSame(t.clients[q.client], now);
      CodesKeepInv(t0.(clients := t'.clients), t'.codes);
    }
  }

  lemma MarkingIsUsedOrSame(c: Client, now: Time)
    ensures MarkedUsed(c, now).workspace == c.workspace
  {
  }

  lemma CodesAreNamed(t: State)
    requires Inv(t)
    ensures forall id :: id in t.codes ==> Named(t, t.codes[id].workspace, t.codes[id].client)
  {
  }

  lemma TokensKeepInv(t: State, tokens: F.State, now: Time)
    requires Inv(t) && F.Inv(tokens) && t.clock <= now && tokens.clock <= now
    requires forall k, a :: k in tokens.families && 0 <= a < |tokens.families[k]| ==>
               Named(t, k.workspace, tokens.families[k][a].client)
    ensures Inv(t.(tokens := tokens, clock := now))
  {
    hide F.Inv, Classify;
    forall id | id in t.clients ensures LifecycleOk(t.(tokens := tokens, clock := now), id) {
      assert LifecycleOk(t, id);
    }
  }

  /** A refresh-token step brings no token of a client that had none in its workspace. */
  lemma StepKeepsNames(t: State, event: F.Event)
    requires Inv(t) && F.Admissible(t.tokens, event) && !event.Exchange?
    ensures var tokens := F.Step(t.tokens, event);
            forall k, a :: k in tokens.families && 0 <= a < |tokens.families[k]| ==>
              Named(t, k.workspace, tokens.families[k][a].client)
  {
    hide F.Inv, Lifecycles, WithinLimit, F.ResolveDeadline, F.AdmittedExpiry, F.Grantable, F.Position;
    hide F.MatchesSchedule, F.Ids;
  }

  lemma ExchangeKeepsInv(t: State, q: ExchangeRequest, now: Time)
    requires Inv(t) && Admissible(t, OnExchange(q, now))
    ensures Inv(ExchangeCode(t, q, now).0)
  {
    hide Inv, F.Issue, CodeGrants;
    LaterKeepsInv(t, now);
    var (t', outcome) := ExchangeCode(t, q, now);
    TokensBehind(t);
    CodesAreNamed(t);
    var t0 := t.(clock := now);
    if q.code in t.codes {
      CodesKeepInv(t0, t.codes - {q.code});
      var code := t.codes[q.code];
      if t'.tokens != t.tokens {
        var issue := IssueFor(code, q, CodeGrants(code, q).value, now);
        F.IssueKeepsInv(t.tokens, issue);
        IssueNames(t, issue);
        TokensKeepInv(t0, t'.tokens, now);
        TokensKeepInv(t0.(codes := t.codes - {q.code}), t'.tokens, now);
      }
    }
  }

  lemma TokensBehind(t: State)
    requires Inv(t)
    ensures F.Inv(t.tokens) && t.tokens.clock <= t.clock
  {
  }

  lemma IssueNames(t: State, q: F.IssueRequest)
    requires Inv(t) && Named(t, q.workspace, q.client)
    ensures var tokens := F.Issue(t.tokens, q).0;
            tokens.clock == q.now
            && forall k, a :: k in tokens.families && 0 <= a < |tokens.families[k]| ==>
              Named(t, k.workspace, tokens.families[k][a].client)
  {
    hide F.Inv, Lifecycles, WithinLimit, F.AdmittedExpiry;
  }

  lemma CleanupKeepsInv(t: State, job: Job, now: Time)
    requires Inv(t) && Admissible(t, OnCleanup(job, now))
    ensures Inv(CleanupUnused(t, job, now).0)
  {
    hide F.Inv, HasReferences, Retire, MarkedUsed;
    LaterKeepsInv(t, now);
    var t0 := t.(clock := now);
    var t1 := t0.(jobs := t.jobs - multiset{job});
    if job.client in t.clients && Classify(t.clients[job.client]) == Unused(job.unusedExpiresAt, job.generation)
      && t.clients[job.client].workspace == job.workspace {
      RetireThenUnpend(t0, job, now);
    } else {
      forall id | id in t.clients ensures LifecycleOk(t1, id) { assert LifecycleOk(t, id); }
    }
  }

  /** The job of a client may go once the client is retired. */
  lemma RetireThenUnpend(t: State, job: Job, now: Time)
    requires Inv(t) && job.client in t.clients && 0 <= now <= F.MAX_SAFE
    ensures Inv(Retire(t.(jobs := t.jobs - multiset{job}), job.client, now))
  {
    hide F.Inv, HasReferences;
    RetireKeepsInv(t, job.client, now);
    var after := Retire(t, job.client, now);
    SameReferences(t, t.(jobs := t.jobs - multiset{job}), t.clients[job.client].workspace, job.client);
    var t' := Retire(t.(jobs := t.jobs - multiset{job}), job.client, now);
    assert t' == after.(jobs := t.jobs - multiset{job});
    forall id | id in t'.clients ensures LifecycleOk(t', id) {
      assert LifecycleOk(after, id);
      if id == job.client { MarkingIsUsed(t.clients[id], now); }
    }
  }

  lemma SameReferences(t: State, t': State, workspace: Id, client: Id)
    requires t.codes == t'.codes && t.tokens == t'.tokens
    ensures HasReferences(t, workspace, client) == HasReferences(t', workspace, client)
  {
  }

  lemma StepKeepsInv(t: State, e: Event)
    requires Inv(t) && Admissible(t, e)
    ensures Inv(Step(t, e))
  {
    hide Inv, Register, RegisterLegacy, CreateCode, ExchangeCode, CleanupUnused, F.Step, IsSweep;
    hide ExpiredCodes, HasReferences;
    match e
    case OnRegister(workspace, id, metadata, candidates, at) =>
      RegisterKeepsInv(t, workspace, id, metadata, candidates, at);
    case OnRegisterLegacy(workspace, id, metadata, at) => RegisterLegacyKeepsInv(t, workspace, id, metadata, at);
    case OnReconcile(workspace, id, at) =>
      LaterKeepsInv(t, at);
      if id in t.clients { MarkKeepsInv(t.(clock := at), id, at); }
    case OnCreateCode(q, lifecycle, swept, at) => CreateCodeKeepsInv(t, q, lifecycle, swept, at);
    case OnExchange(q, at) => ExchangeKeepsInv(t, q, at);
    case OnTokens(event) =>
      TokensBehind(t);
      F.StepKeepsInv(t.tokens, event);
      StepKeepsNames(t, event);
      F.StepTakesTime(t.tokens, event);
      TokensKeepInv(t, F.Step(t.tokens, event), F.TimeOf(event));
    case OnCleanup(job, at) => CleanupKeepsInv(t, job, at);
  }

  ghost function Run(t: State, es: seq<Event>): State
    decreases |es|
  {
    if es == [] then t else Run(Step(t, es[0]), es[1..])
  }

  ghost predicate AdmissibleRun(t: State, es: seq<Event>)
    decreases |es|
  {
    es == [] || (Admissible(t, es[0]) && AdmissibleRun(Step(t, es[0]), es[1..]))
  }

  /** In every reachable state, whichever module wrote last, every code and refresh token names an
      existing client of its workspace, no client is malformed, every unused client has its pending
      clean-up, and no workspace has more than a thousand clients. */
  lemma {:induction false} RunKeepsInv(t: State, es: seq<Event>)
    requires Inv(t) && AdmissibleRun(t, es)
    ensures Inv(Run(t, es))
    decreases |es|
  {
    hide Inv, Step, Admissible;
    if es != [] {
      StepKeepsInv(t, es[0]);
      RunKeepsInv(Step(t, es[0]), es[1..]);
    }
  }

  /** A client that is used, or that anything names, or that has time left, is not deleted. */
  predicate Kept(c: Client, c': Client) {
    c'.workspace == c.workspace && c'.metadata == c.metadata && (c' == c || Classify(c').Used?)
      && (Classify(c).Used? ==> Classify(c').Used?)
  }

  lemma RetireKeeps(t: State, id: Id, now: Time, other: Id)
    requires id in t.clients && other in t.clients && 0 <= now <= F.MAX_SAFE
    requires other == id ==> HasReferences(t, t.clients[id].workspace, id)
    ensures other in Retire(t, id, now).clients && Kept(t.clients[other], Retire(t, id, now).clients[other])
  {
    hide HasReferences, Classify, MarkedUsed;
    MarkingIsUsed(t.clients[id], now);
    MarkingKeepsMetadata(t.clients[id], now);
  }

  lemma MarkingKeepsMetadata(c: Client, now: Time)
    ensures MarkedUsed(c, now).metadata == c.metadata
  {
  }

  ghost predicate Protected(t: State, id: Id, now: Time) {
    id in t.clients && (!Classify(t.clients[id]).Unused? || Classify(t.clients[id]).expiresAt > now
      || HasReferences(t, t.clients[id].workspace, id))
  }

  lemma {:induction false} SweepKeeps(t: State, candidates: seq<Id>, now: Time, id: Id)
    requires Inv(t) && 0 <= now <= F.MAX_SAFE
    requires id in t.clients && (id in candidates ==> HasReferences(t, t.clients[id].workspace, id))
    ensures id in Sweep(t, candidates, now).clients && Kept(t.clients[id], Sweep(t, candidates, now).clients[id])
    decreases |candidates|
  {
    hide Inv, HasReferences, Classify, Retire, MarkedUsed;
    if candidates != [] {
      var front, last := candidates[..|candidates| - 1], candidates[|candidates| - 1];
      SweepKeeps(t, front, now, id);
      SweepKeepsInv(t, front, now);
      var before := Sweep(t, front, now);
      SameReferences(t, before, t.clients[id].workspace, id);
      if last in before.clients { RetireKeeps(before, last, now, id); }
    }
  }

  lemma RegisterKeeps(t: State, workspace: Id, newId: Id, metadata: Metadata, candidates: seq<Id>, now: Time, id: Id)
    requires Inv(t) && Admissible(t, OnRegister(workspace, newId, metadata, candidates, now)) && Protected(t, id, now)
    ensures var t' := Register(t, workspace, newId, metadata, candidates, now).0;
            id in t'.clients && Kept(t.clients[id], t'.clients[id])
  {
    hide F.Inv, HasReferences, Classify, MarkedUsed, Sweep;
    MarkingIsUsed(t.clients[id], now);
    MarkingKeepsMetadata(t.clients[id], now);
    if newId !in t.clients {
      LaterKeepsInv(t, now);
      SweepSparesProtected(t, workspace, candidates, now, id);
      SameReferences(t, t.(clock := now), t.clients[id].workspace, id);
      SweepKeeps(t.(clock := now), TakeBatch(candidates), now, id);
    }
  }

  lemma FiredCleanupKeeps(t: State, job: Job, now: Time, id: Id)
    requires Inv(t) && Admissible(t, OnCleanup(job, now)) && Protected(t, id, now)
    ensures var t' := CleanupUnused(t, job, now).0;
            id in t'.clients && Kept(t.clients[id], t'.clients[id])
  {
    hide F.Inv, HasReferences, Classify, MarkedUsed, Retire;
    if job.client in t.clients && Classify(t.clients[job.client]) == Unused(job.unusedExpiresAt, job.generation) {
      SameReferences(t, t.(clock := now, jobs := t.jobs - multiset{job}), t.clients[id].workspace, id);
      RetireKeeps(t.(clock := now, jobs := t.jobs - multiset{job}), job.client, now, id);
    }
  }

  /** Only an unused client whose time is over and that nothing names is ever deleted. */
  lemma OnlyExpiredUnreferencedClientsGo(t: State, e: Event, id: Id)
    requires Inv(t) && Admissible(t, e) && Protected(t, id, TimeOf(e))
    ensures id in Step(t, e).clients && Kept(t.clients[id], Step(t, e).clients[id])
  {
    hide F.Inv, HasReferences, Classify, MarkedUsed, Retire, F.Step, Register, CleanupUnused;
    var now := TimeOf(e);
    MarkingIsUsed(t.clients[id], now);
    MarkingKeepsMetadata(t.clients[id], now);
    match e
    case OnRegister(workspace, newId, metadata, candidates, at) =>
      RegisterKeeps(t, workspace, newId, metadata, candidates, at, id);
    case OnCleanup(job, at) => FiredCleanupKeeps(t, job, at, id);
    case _ =>
  }

  lemma SweepSparesProtected(t: State, workspace: Id, candidates: seq<Id>, now: Time, id: Id)
    requires Inv(t) && IsSweep(t.clients, workspace, now, candidates) && Protected(t, id, now)
    ensures id in TakeBatch(candidates) ==> HasReferences(t, t.clients[id].workspace, id)
  {
    hide F.Inv, HasReferences, References, WithinLimit;
    assert LifecycleOk(t, id);
  }
}
