/** What registering, reconciling and cleaning up OAuth clients, and creating and exchanging codes, answer
    and leave, said of the columns of clients, codes and tokens alone. */
module OAuthClientOutcomes {
  import opened Base
  import opened OAuthClientModel
  import F = RefreshFamilyModel
  import O = RefreshOutcomes

  // ---------------------------------------------------------------- clients

  predicate UnusedNow(c: Client) { c.lifecycle == Some(UnusedState) }

  predicate TimeIsOver(c: Client, now: Time) {
    UnusedNow(c) && c.unusedExpiresAt.Some? && c.unusedExpiresAt.value <= now
  }

  /** The client once it is in use since now. */
  function InUseSince(c: Client, now: Time): Client {
    Client(c.workspace, c.metadata, Some(UsedState), None, None, None, Some(now))
  }

  /** A code or a refresh token of the workspace names the client. */
  ghost predicate NamedBy(t: State, workspace: Id, client: Id) {
    || (exists id :: id in t.codes && t.codes[id].workspace == workspace && t.codes[id].client == client)
    || (exists k, a :: k in t.tokens.families && 0 <= a < |t.tokens.families[k]| && k.workspace == workspace
                       && t.tokens.families[k][a].client == client)
  }

  function ClientsOf(clients: map<Id, Client>, workspace: Id): set<Id> {
    set id | id in clients && clients[id].workspace == workspace
  }

  lemma KindOf(t: State, id: Id)
    requires Inv(t) && id in t.clients
    ensures var c, kind := t.clients[id], Classify(t.clients[id]);
            && !kind.Malformed?
            && (kind.Used? <==> c.lifecycle == Some(UsedState))
            && (kind.Unused? <==> UnusedNow(c))
            && (kind.Unused? ==> c.unusedExpiresAt == Some(kind.expiresAt) && c.generation == Some(kind.generation))
            && (kind.Used? || forall now :: MarkedUsed(c, now) == InUseSince(c, now))
  {
    hide F.Inv, References, WithinLimit;
    assert LifecycleOk(t, id);
  }

  /** Registering a known client again changes nothing, unless its time is over: then it is in use if anything
      names it, and expired if nothing does. Another registration under its ID is a conflict. */
  lemma RegisterAgain(t: State, workspace: Id, id: Id, metadata: Metadata, candidates: seq<Id>, now: Time)
    requires Inv(t) && id in t.clients
    ensures var c, t0 := t.clients[id], t.(clock := now);
            Register(t, workspace, id, metadata, candidates, now) ==
              if c.workspace != workspace || c.metadata != metadata then (t0, RegistrationConflict)
              else if !TimeIsOver(c, now) then (t0, Registered)
              else if NamedBy(t, workspace, id) then (t0.(clients := t.clients[id := InUseSince(c, now)]), Registered)
              else (t0, RegistrationExpired)
  {
    hide Inv, Classify, MarkedUsed, Sweep;
    KindOf(t, id);
  }

  /** A sweep over some clients puts those in use that anything names, and deletes the others. */
  ghost predicate SweptAway(t: State, clients: map<Id, Client>, ids: seq<Id>, now: Time) {
    && (forall id :: id in clients ==> id in t.clients)
    && forall id :: id in t.clients ==>
         if id !in ids then id in clients && clients[id] == t.clients[id]
         else if NamedBy(t, t.clients[id].workspace, id) then
           id in clients && clients[id] == InUseSince(t.clients[id], now)
         else id !in clients
  }

  lemma {:induction false} SweepDoes(t: State, ids: seq<Id>, now: Time)
    requires forall a, b :: 0 <= a < b < |ids| ==> ids[a] != ids[b]
    requires forall a :: 0 <= a < |ids| ==>
               ids[a] in t.clients && MarkedUsed(t.clients[ids[a]], now) == InUseSince(t.clients[ids[a]], now)
    ensures var t' := Sweep(t, ids, now);
            t' == t.(clients := t'.clients) && SweptAway(t, t'.clients, ids, now)
    decreases |ids|
  {
    hide MarkedUsed, InUseSince, NamedBy, HasReferences;
    if ids != [] {
      var n := |ids| - 1;
      SweepDoes(t, ids[..n], now);
      var before := Sweep(t, ids[..n], now);
      var id := ids[n];
      assert id !in ids[..n] && ids == ids[..n] + [id];
      NamedIsReferenced(before, t.clients[id].workspace, id);
      SameNames(t, before, t.clients[id].workspace, id);
    }
  }

  lemma NamedIsReferenced(t: State, workspace: Id, id: Id)
    ensures HasReferences(t, workspace, id) <==> NamedBy(t, workspace, id)
  {
  }

  lemma SameNames(t: State, t': State, workspace: Id, id: Id)
    requires t'.codes == t.codes && t'.tokens == t.tokens
    ensures NamedBy(t', workspace, id) <==> NamedBy(t, workspace, id)
  {
  }

  /** A new client is registered exactly while its workspace has less than a thousand, counted after a sweep
      over a hundred expired ones at most; it is unused, for a day, with a clean-up due then. */
  lemma RegisterExactly(t: State, workspace: Id, id: Id, metadata: Metadata, candidates: seq<Id>, now: Time)
    requires Inv(t) && Admissible(t, OnRegister(workspace, id, metadata, candidates, now)) && id !in t.clients
    ensures var (t', answer) := Register(t, workspace, id, metadata, candidates, now);
            var rest := t'.clients - {id};
            && SweptAway(t, rest, if |candidates| <= 100 then candidates else candidates[..100], now)
            && answer == (if |ClientsOf(rest, workspace)| < 1000 then Registered
                          else if |candidates| > 100 then Retryable else Limit)
            && t' == if answer == Registered then
                       var due := now + 86400000;
                       t.(clock := now, jobs := t.jobs + multiset{Job(workspace, id, due, 1)},
                          clients := rest[id := Client(workspace, metadata, Some(UnusedState), Some(due), Some(due),
                                                       Some(1), None)])
                     else t.(clock := now, clients := rest)
  {
    hide Inv, Classify, MarkedUsed, InUseSince, Sweep, NamedBy;
    var ids := TakeBatch(candidates);
    forall a | 0 <= a < |ids|
      ensures ids[a] in t.clients && MarkedUsed(t.clients[ids[a]], now) == InUseSince(t.clients[ids[a]], now)
    {
      KindOf(t, candidates[a]);
    }
    var t0 := t.(clock := now);
    SweepDoes(t0, ids, now);
    forall w, other ensures NamedBy(t0, w, other) <==> NamedBy(t, w, other) { SameNames(t, t0, w, other); }
    var t1 := Sweep(t0, ids, now);
    assert t1.clients[id := Client(workspace, metadata, Some(UnusedState), Some(now + 86400000), Some(now + 86400000),
                                   Some(1), None)] - {id} == t1.clients - {id} == t1.clients;
    assert ClientsOf(t1.clients, workspace) == WorkspaceClients(t1.clients, workspace);
  }

  /** The older module registers a client exactly under a new ID while its workspace has less than a thousand. */
  lemma RegisterLegacyExactly(t: State, workspace: Id, id: Id, metadata: Metadata, now: Time)
    ensures RegisterLegacy(t, workspace, id, metadata, now) ==
              if id in t.clients then (t.(clock := now), RegistrationConflict)
              else if |ClientsOf(t.clients, workspace)| >= 1000 then (t.(clock := now), Limit)
              else
                var c := Client(workspace, metadata, None, None, None, None, None);
                (t.(clock := now, clients := t.clients[id := c]), Registered)
  {
    assert ClientsOf(t.clients, workspace) == WorkspaceClients(t.clients, workspace);
  }

  /** A client that anything names is put in use exactly if it was not. */
  lemma ReconcileExactly(t: State, workspace: Id, id: Id, now: Time)
    requires Inv(t)
    ensures ReconcileLifecycle(t, workspace, id, now) ==
              if id !in t.clients || t.clients[id].workspace != workspace then (t.(clock := now), Missing)
              else if t.clients[id].lifecycle != Some(UsedState) && NamedBy(t, workspace, id) then
                (t.(clock := now, clients := t.clients[id := InUseSince(t.clients[id], now)]), Repaired)
              else (t.(clock := now), Unchanged)
  {
    hide Inv, Classify, MarkedUsed;
    if id in t.clients { KindOf(t, id); }
  }

  /** A scheduled clean-up acts exactly on the unused client whose schedule it was armed for: it deletes it,
      or puts it in use if anything names it. */
  lemma CleanupExactly(t: State, job: Job, now: Time)
    requires Inv(t)
    ensures var t0 := t.(clock := now, jobs := t.jobs - multiset{job});
            CleanupUnused(t, job, now) ==
              if job.client !in t.clients || t.clients[job.client].workspace != job.workspace then (t0, CleanupMissing)
              else
                var c := t.clients[job.client];
                if && UnusedNow(c) && c.unusedExpiresAt == Some(job.unusedExpiresAt)
                   && c.generation == Some(job.generation)
                then
                  if NamedBy(t, job.workspace, job.client) then
                    (t0.(clients := t.clients[job.client := InUseSince(c, now)]), RetainedBlocked)
                  else (t0.(clients := t.clients - {job.client}), Cleaned)
                else (t0, Retained)
  {
    hide Inv, Classify, MarkedUsed;
    if job.client in t.clients { KindOf(t, job.client); }
  }

  // ---------------------------------------------------------------- codes

  /** The account may have these scopes: reading always, writing if it may write. */
  predicate MayHave(scopes: set<F.Scope>, principal: Option<set<F.Scope>>) {
    principal.Some? && F.Read in scopes && F.Read in principal.value
    && (F.Write in scopes ==> F.Write in principal.value)
  }

  /** A code is created exactly for a client of the workspace that registered the redirect, for an account
      that may have the scopes, offline access only with the refresh grant, under a new ID and for ten
      minutes at most; the lifecycle module also demands that the client's time is not over. */
  lemma CreateCodeExactly(t: State, q: CodeRequest, lifecycle: bool, swept: set<Id>, now: Time)
    requires Inv(t)
    ensures CreateCode(t, q, lifecycle, swept, now).1.Granted? <==>
              && q.client in t.clients && t.clients[q.client].workspace == q.workspace
              && q.redirect in t.clients[q.client].metadata.redirects && MayHave(q.scopes, q.principal)
              && (F.OfflineAccess in q.scopes ==> t.clients[q.client].metadata.refreshGrant)
              && q.id !in t.codes && (now as real) < q.expiresAt <= (now + 600000) as real
              && (lifecycle ==> !TimeIsOver(t.clients[q.client], now))
  {
    hide Inv, Classify;
    if q.client in t.clients { KindOf(t, q.client); }
  }

  /** What it leaves: the code as it was asked for, in place of the expired ones that were swept, and with
      the lifecycle module the client in use. */
  lemma CreateCodeEffect(t: State, q: CodeRequest, lifecycle: bool, swept: set<Id>, now: Time)
    requires Inv(t)
    ensures var (t', answer) := CreateCode(t, q, lifecycle, swept, now);
            if answer.Granted? then
              && q.client in t.clients && answer.scopes == q.scopes
              && var code := Code(q.workspace, q.account, q.secret, q.client, q.redirect, q.challenge, q.scopes,
                                  q.resource, q.expiresAt.Floor);
              var c := t.clients[q.client];
              t' == t.(clock := now, codes := (t.codes - swept)[q.id := code],
                       clients := if lifecycle && c.lifecycle != Some(UsedState)
                                  then t.clients[q.client := InUseSince(c, now)] else t.clients)
            else answer == Refused && t' == t.(clock := now)
  {
    hide Inv, Classify, MarkedUsed;
    if q.client in t.clients { KindOf(t, q.client); }
  }

  /** The code is presented with its own secret, client, redirect and challenge, in time, to its workspace,
      for an account that may have its scopes. */
  predicate Redeems(code: Code, q: ExchangeRequest, now: Time) {
    && code.workspace == q.workspace && now < code.expiresAt && code.secret == q.secret && code.client == q.client
    && code.redirect == q.redirect && code.challenge == q.challenge && MayHave(code.scopes, q.principal)
  }

  /** The refresh token to be issued has a new ID and ends within ninety days. */
  ghost predicate TokenFits(t: State, q: ExchangeRequest, now: Time) {
    && (forall k, a :: k in t.tokens.families && 0 <= a < |t.tokens.families[k]| ==>
          t.tokens.families[k][a].id != q.refreshId)
    && (now as real) < q.refreshExpiresAt <= (now + 7776000000) as real
  }

  /** An exchange grants exactly what a redeemed code has, with a refresh token for offline access if that
      fits; only a token that does not fit is an error, and rolls the exchange back. */
  lemma ExchangeAnswers(t: State, q: ExchangeRequest, now: Time)
    requires Inv(t) && Admissible(t, OnExchange(q, now))
    ensures ExchangeCode(t, q, now).1 ==
              if q.code !in t.codes || !Redeems(t.codes[q.code], q, now) then NoGrant
              else if F.OfflineAccess in t.codes[q.code].scopes && !TokenFits(t, q, now) then Refused
              else Granted(t.codes[q.code].scopes)
  {
    hide F.Inv, F.Issue, F.Admissible, Classify;
    if q.code in t.codes && Redeems(t.codes[q.code], q, now) {
      IssuesExactly(t, q, t.codes[q.code], now);
    }
  }

  lemma IssuesExactly(t: State, q: ExchangeRequest, code: Code, now: Time)
    requires Inv(t) && Admissible(t, OnExchange(q, now))
    ensures F.Issue(t.tokens, IssueFor(code, q, code.scopes, now)).1 == F.Issued <==> TokenFits(t, q, now)
    ensures F.Issue(t.tokens, IssueFor(code, q, code.scopes, now)).1 != F.Issued ==>
              F.Issue(t.tokens, IssueFor(code, q, code.scopes, now)).0 == t.tokens.(clock := now)
  {
    hide F.Inv, F.Issue, Lifecycles, References, WithinLimit;
    O.IssueExactly(t.tokens, IssueFor(code, q, code.scopes, now));
  }

  /** A presented code is used up, whatever came of it, unless it is another workspace's and in time, or the
      exchange was rolled back; and a token is issued exactly for a grant of offline access. */
  lemma ExchangeEffect(t: State, q: ExchangeRequest, now: Time)
    requires Inv(t) && Admissible(t, OnExchange(q, now))
    ensures var (t', answer) := ExchangeCode(t, q, now);
            && t'.clients == t.clients && t'.jobs == t.jobs && t'.clock == now
            && t'.codes == (if q.code in t.codes && answer != Refused
                               && (t.codes[q.code].workspace == q.workspace || t.codes[q.code].expiresAt <= now)
                            then t.codes - {q.code} else t.codes)
            && (if answer.Granted? && F.OfflineAccess in answer.scopes then
                  && q.code in t.codes
                  && var code, expiry := t.codes[q.code], q.refreshExpiresAt.Floor;
                  t'.tokens.families ==
                    t.tokens.families[F.FamilyKey(code.workspace, q.refreshId) :=
                      [F.Token(code.account, q.refreshId, q.refreshSecret, code.client, code.scopes, code.resource,
                               Some(expiry), Some(expiry), Some(-1), now, expiry, None, None, None)]]
                else t'.tokens.families == t.tokens.families)
  {
    hide F.Inv, F.Issue, F.Admissible, Classify;
    if q.code in t.codes {
      IssuesExactly(t, q, t.codes[q.code], now);
      IssueLeaves(t, q, t.codes[q.code], now);
    }
  }

  lemma IssueLeaves(t: State, q: ExchangeRequest, code: Code, now: Time)
    requires Inv(t) && Admissible(t, OnExchange(q, now))
    ensures var (tokens, answer) := F.Issue(t.tokens, IssueFor(code, q, code.scopes, now));
            var expiry := q.refreshExpiresAt.Floor;
            answer == F.Issued ==>
              tokens.families ==
                t.tokens.families[F.FamilyKey(code.workspace, q.refreshId) :=
                  [F.Token(code.account, q.refreshId, q.refreshSecret, code.client, code.scopes, code.resource,
                           Some(expiry), Some(expiry), Some(-1), now, expiry, None, None, None)]]
  {
    hide F.Inv, F.Issue, Lifecycles, References, WithinLimit;
    O.IssueExactly(t.tokens, IssueFor(code, q, code.scopes, now));
  }
}
