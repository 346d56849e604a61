/** The client-lifecycle and code mutations of both modules over the tables, branch by branch; the
    refresh tokens are the object they share. */
module OAuthClients {
  import opened Base
  import opened OAuthClientModel
  import F = RefreshFamilyModel
  import R = RefreshFamilies

  class OAuthClients {
    var clients: map<Id, Client>
    var codes: map<Id, Code>
    var jobs: multiset<Job>
    ghost var clock: Time
    const refresh: R.RefreshFamilies

    ghost function Contents(): State
      reads this, refresh
    {
      State(clients, codes, refresh.Contents(), jobs, clock)
    }

    ghost predicate Valid()
      reads this, refresh
    {
      Inv(Contents())
    }

    constructor (refresh: R.RefreshFamilies)
      requires refresh.Contents() == F.EMPTY
      ensures Valid() && Contents() == EMPTY && this.refresh == refresh
    {
      this.refresh := refresh;
      clients, codes, jobs, clock := map[], map[], multiset{}, 0;
    }

    method ClientHasReferences(workspace: Id, client: Id) returns (found: bool)
      ensures found == HasReferences(Contents(), workspace, client)
    {
      if exists id :: id in codes && codes[id].workspace == workspace && codes[id].client == client {
        return true;
      }
      var families := refresh.families;
      found := exists k ::
        && k in families && k.workspace == workspace
        && exists a :: 0 <= a < |families[k]| && families[k][a].client == client;
    }

    method MarkClientUsedConservatively(id: Id, now: Time)
      requires id in clients
      modifies this`clients
      ensures clients == old(clients)[id := MarkedUsed(old(clients)[id], now)]
    {
      var client := clients[id];
      clients := clients[id := client.(
        lifecycle := Some(UsedState),
        firstUsedAt := if SafeTimestamp(client.firstUsedAt) then client.firstUsedAt else Some(now),
        unusedExpiresAt := None, scheduledAt := None, generation := None)];
    }

    /** Some expired unused clients of the workspace: one more than a batch, or all there are. */
    method ReadExpiredUnused(workspace: Id, now: Time) returns (candidates: seq<Id>)
      ensures IsSweep(clients, workspace, now, candidates)
    {
      candidates := [];
      var rest := set id | id in clients && ExpiredUnused(clients[id], workspace, now);
      while rest != {} && |candidates| <= CLEANUP_BATCH
        invariant |candidates| <= CLEANUP_BATCH + 1
        invariant forall a, b :: 0 <= a < b < |candidates| ==> candidates[a] != candidates[b]
        invariant forall a :: 0 <= a < |candidates| ==>
                    candidates[a] in clients && ExpiredUnused(clients[candidates[a]], workspace, now)
                      && candidates[a] !in rest
        invariant forall id :: id in rest ==> id in clients && ExpiredUnused(clients[id], workspace, now)
        invariant forall id :: id in clients && ExpiredUnused(clients[id], workspace, now) ==>
                    id in rest || id in candidates
        decreases rest
      {
        var id :| id in rest;
        rest := rest - {id};
        candidates := candidates + [id];
      }
    }

    method CleanupExpiredUnusedClients(workspace: Id, now: Time)
      returns (cleaned: nat, blocked: nat, hasMore: bool, ghost candidates: seq<Id>)
      requires Valid() && 0 <= now <= F.MAX_SAFE
      modifies this`clients
      ensures IsSweep(old(clients), workspace, now, candidates)
      ensures Contents() == Sweep(old(Contents()), TakeBatch(candidates), now)
      ensures cleaned + blocked == |TakeBatch(candidates)| && (hasMore <==> |candidates| > CLEANUP_BATCH)
      ensures |clients| == |old(clients)| - cleaned
    {
      hide Inv, HasReferences, Sweep;
      ghost var t := Contents();
      var scanned := ReadExpiredUnused(workspace, now);
      candidates := scanned;
      var batch := TakeBatch(scanned);
      cleaned, blocked := 0, 0;
      SweepNothing(t, now);
      for i := 0 to |batch|
        invariant Contents() == Sweep(t, batch[..i], now) && Valid()
        invariant forall a :: i <= a < |batch| ==> batch[a] in clients && clients[batch[a]] == t.clients[batch[a]]
        invariant cleaned + blocked == i && |clients| == |t.clients| - cleaned
      {
        var id := batch[i];
        SweepOne(t, batch, i, now);
        SweepKeepsInv(t, batch[..i + 1], now);
        NotMalformed(t, id);
        assert ExpiredUnused(t.clients[id], workspace, now);
        var lifecycle := Classify(clients[id]);
        var referenced := ClientHasReferences(workspace, id);
        if referenced {
          MarkClientUsedConservatively(id, now);
          blocked := blocked + 1;
        } else if lifecycle.Unused? && lifecycle.expiresAt <= now {
          clients := clients - {id};
          cleaned := cleaned + 1;
        } else {
          assert false;
        }
      }
      assert batch[..|batch|] == batch;
      hasMore := |scanned| > CLEANUP_BATCH;
    }

    method Register(workspace: Id, id: Id, metadata: Metadata, now: Time)
      returns (outcome: RegisterOutcome, ghost candidates: seq<Id>)
      requires Valid() && clock <= now && 0 < now && now + F.MAX_REFRESH_LIFETIME <= F.MAX_SAFE
      modifies this
      ensures Valid()
      ensures id !in old(clients) ==> IsSweep(old(clients), workspace, now, candidates)
      ensures (Contents(), outcome) ==
                OAuthClientModel.Register(old(Contents()), workspace, id, metadata, candidates, now)
    {
      hide Inv, HasReferences, Sweep, IsSweep;
      LaterKeepsInv(Contents(), now);
      ghost var t := Contents();
      clock := now;
      candidates := [];
      if id in clients {
        var existing := clients[id];
        MarkKeepsInv(Contents(), id, now);
        SameReferences(t, Contents(), workspace, id);
        if existing.workspace != workspace || existing.metadata != metadata {
          return RegistrationConflict, candidates;
        }
        var lifecycle := Classify(existing);
        NotMalformed(t, id);
        if lifecycle.Malformed? {
          assert false;
          return RegistrationConflict, candidates;
        }
        if lifecycle.Unused? && lifecycle.expiresAt <= now {
          var referenced := ClientHasReferences(workspace, id);
          if referenced {
            MarkClientUsedConservatively(id, now);
            return Registered, candidates;
          }
          return RegistrationExpired, candidates;
        }
        return Registered, candidates;
      }
      outcome, candidates := RegisterNew(workspace, id, metadata, now);
      RegisterKeepsInv(t, workspace, id, metadata, candidates, now);
    }

    /** The rest of a registration, for an ID that is not taken. */
    method RegisterNew(workspace: Id, id: Id, metadata: Metadata, now: Time)
      returns (outcome: RegisterOutcome, ghost candidates: seq<Id>)
      requires Valid() && clock == now && 0 < now && now + F.MAX_REFRESH_LIFETIME <= F.MAX_SAFE && id !in clients
      modifies this`clients, this`jobs
      ensures IsSweep(old(clients), workspace, now, candidates)
      ensures (Contents(), outcome) ==
                OAuthClientModel.Register(old(Contents()), workspace, id, metadata, candidates, now)
    {
      hide Inv, HasReferences, Sweep, IsSweep;
      var cleaned, blocked, hasMore, swept := CleanupExpiredUnusedClients(workspace, now);
      candidates := swept;
      if |WorkspaceClients(clients, workspace)| >= MAX_CLIENTS {
        return if hasMore then Retryable else Limit, candidates;
      }
      var unusedExpiresAt := now + UNUSED_LIFETIME;
      clients := clients[id := Client(workspace, metadata, Some(UnusedState), Some(unusedExpiresAt),
        Some(unusedExpiresAt), Some(1), None)];
      jobs := jobs + multiset{Job(workspace, id, unusedExpiresAt, 1)};
      return Registered, candidates;
    }

    method RegisterLegacy(workspace: Id, id: Id, metadata: Metadata, now: Time) returns (outcome: RegisterOutcome)
      requires Valid() && clock <= now
      modifies this
      ensures Valid()
      ensures (Contents(), outcome) == OAuthClientModel.RegisterLegacy(old(Contents()), workspace, id, metadata, now)
    {
      hide Inv;
      RegisterLegacyKeepsInv(Contents(), workspace, id, metadata, now);
      clock := now;
      if id in clients {
        return RegistrationConflict;
      }
      if |WorkspaceClients(clients, workspace)| >= MAX_CLIENTS {
        return Limit;
      }
      clients := clients[id := Client(workspace, metadata, None, None, None, None, None)];
      return Registered;
    }

    method ReconcileLifecycle(workspace: Id, id: Id, now: Time) returns (outcome: ReconcileOutcome)
      requires Valid() && clock <= now && 0 < now <= F.MAX_SAFE
      modifies this
      ensures Valid()
      ensures (Contents(), outcome) == OAuthClientModel.ReconcileLifecycle(old(Contents()), workspace, id, now)
    {
      hide Inv, HasReferences;
      LaterKeepsInv(Contents(), now);
      SameReferences(Contents(), Contents().(clock := now), workspace, id);
      clock := now;
      if id !in clients || clients[id].workspace != workspace {
        return Missing;
      }
      MarkKeepsInv(Contents(), id, now);
      if Classify(clients[id]).Used? {
        return Unchanged;
      }
      var referenced := ClientHasReferences(workspace, id);
      if !referenced {
        return Unchanged;
      }
      MarkClientUsedConservatively(id, now);
      return Repaired;
    }

    /** Delete some expired codes, at most one hundred of them. */
    method DeleteExpiredCodes(now: Time) returns (ghost swept: set<Id>)
      modifies this`codes
      ensures ExpiredCodes(old(Contents()), swept, now)
      ensures codes == old(codes) - swept
    {
      var rest := set id | id in codes && codes[id].expiresAt <= now;
      swept := {};
      var n := 0;
      while n < 100 && rest != {}
        invariant 0 <= n <= 100 && |swept| == n
        invariant codes == old(codes) - swept && swept !! rest
        invariant forall id :: id in swept || id in rest ==> id in old(codes) && old(codes)[id].expiresAt <= now
      {
        var id :| id in rest;
        rest := rest - {id};
        codes := codes - {id};
        swept := swept + {id};
        n := n + 1;
      }
    }

    /** The code creation of either module. */
    method CreateCode(q: CodeRequest, lifecycle: bool, now: Time) returns (outcome: Outcome, ghost swept: set<Id>)
      requires Valid() && clock <= now && 0 < now && now + F.MAX_REFRESH_LIFETIME <= F.MAX_SAFE
      modifies this
      ensures Valid()
      ensures ExpiredCodes(old(Contents()), swept, now)
      ensures (Contents(), outcome) == OAuthClientModel.CreateCode(old(Contents()), q, lifecycle, swept, now)
    {
      hide Inv, Classify, ExpiredCodes;
      ghost var t := Contents();
      LaterKeepsInv(Contents(), now);
      NoCodesSwept(t, now);
      swept := {};
      clock := now;
      if q.client !in clients || clients[q.client].workspace != q.workspace {
        return Refused, swept;
      }
      var client := clients[q.client];
      if lifecycle && !Available(client, now) {
        return Refused, swept;
      }
      if q.redirect !in client.metadata.redirects || q.principal.None? {
        return Refused, swept;
      }
      var scopes := F.AuthorisedScopes(q.scopes, q.principal.value);
      if scopes.None? || (F.OfflineAccess in scopes.value && !client.metadata.refreshGrant) || q.id in codes {
        return Refused, swept;
      }
      var expiry := F.AdmittedExpiry(q.expiresAt, now, MAX_CODE_LIFETIME);
      if expiry.None? {
        return Refused, swept;
      }
      swept := DeleteExpiredCodes(now);
      SameCodesExpired(t, t.(clock := now), swept, now);
      CreateCodeKeepsInv(t, q, lifecycle, swept, now);
      if lifecycle && !Classify(client).Used? {
        MarkClientUsedConservatively(q.client, now);
      }
      codes := codes[q.id := Code(q.workspace, q.account, q.secret, q.client, q.redirect, q.challenge, scopes.value,
        q.resource, expiry.value)];
      return Granted(scopes.value), swept;
    }

    method ExchangeAuthorizationCode(q: ExchangeRequest, now: Time) returns (outcome: Outcome)
      requires Valid() && refresh.Valid() && Admissible(Contents(), OnExchange(q, now))
      modifies this, refresh
      ensures Valid() && refresh.Valid()
      ensures (Contents(), outcome) == ExchangeCode(old(Contents()), q, now)
    {
      hide Inv, F.Inv, F.Issue;
      ExchangeKeepsInv(Contents(), q, now);
      TokensBehind(Contents());
      clock := now;
      if q.code !in codes {
        return NoGrant;
      }
      var code := codes[q.code];
      if code.workspace != q.workspace || code.expiresAt <= now {
        if code.expiresAt <= now {
          codes := codes - {q.code};
        }
        return NoGrant;
      }
      if code.secret != q.secret || code.client != q.client || code.redirect != q.redirect
        || code.challenge != q.challenge {
        codes := codes - {q.code};
        return NoGrant;
      }
      if q.principal.None? {
        codes := codes - {q.code};
        return NoGrant;
      }
      var scopes := F.AuthorisedScopes(code.scopes, q.principal.value);
      if scopes.None? {
        codes := codes - {q.code};
        return NoGrant;
      }
      if F.OfflineAccess in scopes.value {
        var issued := refresh.Exchange(IssueFor(code, q, scopes.value, now));
        if issued == F.IssueError {
          return Refused;
        }
      }
      codes := codes - {q.code};
      return Granted(scopes.value);
    }

    method CleanupUnusedScheduled(job: Job, now: Time) returns (outcome: CleanupOutcome)
      requires Valid() && Admissible(Contents(), OnCleanup(job, now))
      modifies this
      ensures Valid()
      ensures (Contents(), outcome) == CleanupUnused(old(Contents()), job, now)
    {
      hide Inv, HasReferences;
      CleanupKeepsInv(Contents(), job, now);
      ghost var t := Contents();
      SameReferences(t, t.(clock := now, jobs := t.jobs - multiset{job}), job.workspace, job.client);
      clock := now;
      jobs := jobs - multiset{job};
      if job.client !in clients || clients[job.client].workspace != job.workspace {
        return CleanupMissing;
      }
      var client := clients[job.client];
      NotMalformed(t, job.client);
      if || client.lifecycle != Some(UnusedState) || client.unusedExpiresAt != Some(job.unusedExpiresAt)
         || client.scheduledAt != Some(job.unusedExpiresAt) || client.generation != Some(job.generation)
         || !PositiveGeneration(Some(job.generation))
      {
        return Retained;
      }
      var lifecycle := Classify(client);
      if lifecycle.Malformed? || !lifecycle.Unused? || job.unusedExpiresAt > now {
        assert false;
        return Retained;
      }
      var referenced := ClientHasReferences(job.workspace, job.client);
      if referenced {
        MarkClientUsedConservatively(job.client, now);
        return RetainedBlocked;
      }
      clients := clients - {job.client};
      return Cleaned;
    }
  }

  lemma NotMalformed(t: State, id: Id)
    requires Inv(t) && id in t.clients
    ensures !Classify(t.clients[id]).Malformed?
  {
    assert LifecycleOk(t, id);
  }

  lemma NoCodesSwept(t: State, now: Time)
    ensures ExpiredCodes(t, {}, now)
  {
  }

  lemma SameCodesExpired(t: State, t': State, swept: set<Id>, now: Time)
    requires t.codes == t'.codes
    ensures ExpiredCodes(t, swept, now) == ExpiredCodes(t', swept, now)
  {
  }

  lemma SweepNothing(t: State, now: Time)
    ensures Sweep(t, [], now) == t
  {
  }

  /** One more candidate of a sweep. */
  lemma SweepOne(t: State, batch: seq<Id>, i: nat, now: Time)
    requires i < |batch| && batch[i] in Sweep(t, batch[..i], now).clients
    ensures Sweep(t, batch[..i + 1], now) == Retire(Sweep(t, batch[..i], now), batch[i], now)
  {
    hide HasReferences;
    assert batch[..i + 1][..i] == batch[..i];
  }
}
