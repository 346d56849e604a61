/** The refresh-token mutations over the table itself, branch by branch: three probe rows for the
    deadline, the newest row alone for a revocation, and one batch of deletions for each job. */
module RefreshFamilies {
  import opened Base
  import opened RefreshFamilyModel

  class RefreshFamilies {
    var families: map<FamilyKey, seq<Token>>
    var home: map<Id, FamilyKey>
    var jobs: multiset<Job>
    ghost var issued: set<Id>
    ghost var clock: Time

    ghost function Contents(): State
      reads this
    {
      State(families, home, jobs, issued, clock)
    }

    ghost predicate Valid()
      reads this
    {
      Inv(Contents())
    }

    constructor ()
      ensures Valid() && Contents() == EMPTY
    {
      families, home, jobs, issued, clock := map[], map[], multiset{}, {}, 0;
    }

    /** The refresh half of the code exchange. */
    method Exchange(q: IssueRequest) returns (outcome: IssueOutcome)
      requires Valid() && Admissible(Contents(), RefreshFamilyModel.Exchange(q))
      modifies this
      ensures Valid()
      ensures (Contents(), outcome) == Issue(old(Contents()), q)
    {
      hide Inv;
      IssueKeepsInv(Contents(), q);
      clock := q.now;
      if q.refreshId in home {
        return IssueError;
      }
      var expiry := AdmittedExpiry(q.expiresAt, q.now, MAX_REFRESH_LIFETIME);
      if expiry.None? {
        return IssueError;
      }
      var generation := NextGeneration(None);
      var k := FamilyKey(q.workspace, q.refreshId);
      families := families[k := [Token(q.account, q.refreshId, q.secret, q.client, q.scopes, q.resource,
                                       expiry, expiry, Some(generation), q.now, expiry.value, None, None, None)]];
      home := home[q.refreshId := k];
      jobs := jobs + multiset{Job(k, expiry.value, generation, false, expiry.value)};
      issued := issued + {q.refreshId};
      return Issued;
    }

    /** The coordinator's place in the family and the deadline three probe rows agree on. */
    method ReadRefreshFamily(k: FamilyKey, token: Token) returns (coordinator: nat, deadline: Option<Time>)
      requires Valid() && k in families && token in families[k]
      ensures coordinator == 0 && deadline == ResolveDeadline(families[k]) && deadline.Some?
    {
      hide Indexed, Rooted, JobsAgree, CleanupPending, Chained, DistinctIds, Dated, Coordinated;
      hide ResolveDeadline, Position;
      RootIsOldest(Contents(), k);
      var rows := families[k];
      coordinator := 0;
      if k.family in home && home[k.family] == k {
        coordinator := Position(rows, k.family);
      }
      ProbesFindFamilyDeadline(rows, clock, [rows[coordinator], token, rows[|rows| - 1]]);
      ProbesFindFamilyDeadline(rows, clock, rows);
      deadline := ResolveDeadline([rows[coordinator], token, rows[|rows| - 1]]);
    }

    method EnsureCleanupScheduled(k: FamilyKey, coordinator: nat, deadline: Time, now: Time)
      requires k in families && coordinator < |families[k]| && 0 < deadline <= MAX_SAFE
      modifies this`families, this`jobs
      ensures var f := old(families[k]);
              families == old(families)[k := f[coordinator := WithSchedule(f[coordinator], deadline)]]
      ensures jobs == old(jobs) + ScheduleJob(k, old(families[k])[coordinator], deadline, now)
    {
      var row := families[k][coordinator];
      if row.familyExpiresAt == Some(deadline) && row.scheduledAt == Some(deadline)
        && IsCurrentGeneration(row.generation) {
        assert families[k][coordinator := row] == families[k];
        return;
      }
      var generation := NextGeneration(row.generation);
      families := families[k := families[k][coordinator := row.(
        familyExpiresAt := Some(deadline), scheduledAt := Some(deadline), generation := Some(generation))]];
      jobs := jobs + multiset{Job(k, deadline, generation, false, Max(now, deadline))};
    }

    method RevokeRefreshFamily(k: FamilyKey, now: Time)
      requires k in families && families[k] != [] && Chained(families[k])
      modifies this`families
      ensures families == old(families)[k := RevokeAll(old(families[k]), now)]
    {
      RevokingNewestRevokesAll(families[k], now);
      var newest := families[k][|families[k]| - 1];
      if newest.consumedAt.None? && newest.revokedAt.None? {
        families := families[k := families[k][|families[k]| - 1 := newest.(revokedAt := Some(now))]];
      } else {
        assert RevokeNewest(families[k], now) == families[k];
      }
    }

    /** Revoke one row that is not spent; in a chain it can only be the newest. */
    method RevokeRow(k: FamilyKey, i: nat, now: Time)
      requires k in families && Chained(families[k]) && i < |families[k]| && !Spent(families[k][i])
      modifies this`families
      ensures families == old(families)[k := RevokeAll(old(families[k]), now)]
    {
      OnlyNewestUnspent(families[k], i);
      RevokingNewestRevokesAll(families[k], now);
      families := families[k := families[k][i := families[k][i].(revokedAt := Some(now))]];
    }

    method RotateRefreshToken(q: RotateRequest) returns (outcome: RotateOutcome)
      requires Valid() && Admissible(Contents(), Rotation(q))
      modifies this
      ensures Valid()
      ensures (Contents(), outcome) == Rotate(old(Contents()), q)
    {
      hide Inv, AdmittedExpiry, Position, ResolveDeadline, Chained, DistinctIds, Dated, Coordinated;
      RotateKeepsInv(Contents(), q);
      LaterKeepsInv(Contents(), q.now);
      clock := q.now;
      if q.id !in home {
        return Invalid;
      }
      StoredFamily(Contents(), q.id);
      var k := home[q.id];
      var i := Position(families[k], q.id);
      var row := families[k][i];
      if k.workspace != q.workspace || row.secret != q.secret || row.client != q.client {
        return Invalid;
      }
      var coordinator, deadline := ReadRefreshFamily(k, row);
      if deadline.None? {
        assert false;
        return Invalid;
      }
      outcome := RotatePresented(q, k, i, coordinator, deadline.value);
    }

    /** The second half of the rotation, once the token is found and its family deadline is known. */
    method RotatePresented(q: RotateRequest, k: FamilyKey, i: nat, coordinator: nat, deadline: Time)
      returns (outcome: RotateOutcome)
      requires q.id in home && k == home[q.id] && k in families && Sound(families[k], clock)
      requires i < |families[k]| && i == Position(families[k], q.id) && Presents(Contents(), q)
      requires coordinator == 0 && ResolveDeadline(families[k]) == Some(deadline) && clock == q.now
      modifies this
      ensures (Contents(), outcome) == Rotate(old(Contents()), q)
    {
      hide AdmittedExpiry, Position, DistinctIds, Dated, Coordinated;
      ProbesFindFamilyDeadline(families[k], clock, families[k]);
      SchedulingKeepsSound(families[k], clock);
      hide ResolveDeadline, ScheduleJob;
      var familiesBefore, jobsBefore := families, jobs;
      var row := families[k][i];
      EnsureCleanupScheduled(k, coordinator, deadline, q.now);
      ghost var revoked := familiesBefore[k := RevokeAll(families[k], q.now)];
      if row.consumedAt.Some? || row.revokedAt.Some? {
        RevokeRefreshFamily(k, q.now);
        assert families == revoked;
        return Replayed;
      }
      if row.expiresAt <= q.now || deadline <= q.now {
        RevokeRow(k, i, q.now);
        assert families == revoked;
        return Invalid;
      }
      if q.principal.None? {
        RevokeRefreshFamily(k, q.now);
        assert families == revoked;
        return Invalid;
      }
      var scopes := AuthorisedScopes(row.scopes, q.principal.value);
      if scopes.None? {
        RevokeRefreshFamily(k, q.now);
        assert families == revoked;
        return Invalid;
      }
      var requested := AdmittedExpiry(q.nextExpiresAt, q.now, MAX_REFRESH_LIFETIME);
      if q.nextId in home || requested.None? {
        families, jobs := familiesBefore, jobsBefore;
        return RotateError;
      }
      families := families[k := families[k][i := families[k][i].(consumedAt := Some(q.now),
        rotatedTo := Some(q.nextId))]];
      var next := Token(row.account, q.nextId, q.nextSecret, row.client, scopes.value, row.resource,
                        Some(deadline), None, None, q.now, Min(requested.value, deadline), None, None, None);
      families, home := families[k := families[k] + [next]], home[q.nextId := k];
      assert families == familiesBefore[k := families[k]];
      issued := issued + {q.nextId};
      return Rotated(scopes.value);
    }

    method CleanupScheduled(job: Job, now: Time) returns (outcome: CleanupOutcome)
      requires Valid() && Admissible(Contents(), Fire(job, now))
      modifies this
      ensures Valid()
      ensures (Contents(), outcome) == Cleanup(old(Contents()), job, now)
    {
      hide Inv, Sound, Position, ResolveDeadline, MatchesSchedule, Ids;
      CleanupKeepsInv(Contents(), job, now);
      var k := job.key;
      if k !in families {
        jobs, clock := jobs - multiset{job}, now;
        return CleanupOutcome(Missing, 0, 0, false);
      }
      FamilyIsSound(Contents(), k);
      JobMeetsDeadline(Contents(), job);
      RootIsOldest(Contents(), k);
      var coordinator := 0;
      if k.family in home && home[k.family] == k {
        coordinator := Position(families[k], k.family);
      }
      var oldest := families[k][..Min(|families[k]|, CLEANUP_BATCH + 1)];
      if !job.continuation && !MatchesSchedule(job, families[k][coordinator]) {
        jobs, clock := jobs - multiset{job}, now;
        return CleanupOutcome(Retained, Min(|oldest|, CLEANUP_BATCH), 0, |oldest| > CLEANUP_BATCH);
      }
      outcome := CleanupDue(job, now, coordinator, oldest);
    }

    /** The rest of the clean-up, for the family's own job or a continuation of one. */
    method CleanupDue(job: Job, now: Time, coordinator: nat, oldest: seq<Token>) returns (outcome: CleanupOutcome)
      requires job.key in families && Sound(families[job.key], clock) && coordinator == 0
      requires families[job.key][0].familyExpiresAt == Some(job.familyExpiresAt) && job.familyExpiresAt <= now
      requires oldest == families[job.key][..Min(|families[job.key]|, CLEANUP_BATCH + 1)]
      requires job.continuation || MatchesSchedule(job, families[job.key][0])
      modifies this
      ensures (Contents(), outcome) == Cleanup(old(Contents()), job, now)
    {
      hide Ids, Chained, DistinctIds, Dated, Coordinated, MatchesSchedule, ResolveDeadline, ClearedFamily;
      var k := job.key;
      var newest := families[k][|families[k]| - 1];
      ProbesFindFamilyDeadline(families[k], clock, oldest + [newest]);
      ClearingUnscheduled(families, k);
      var resolved := ResolveDeadline(oldest + [newest]);
      jobs, clock := jobs - multiset{job}, now;
      var canonical := CanonicalDeadline(job, resolved, now);
      if !job.continuation {
        families := families[k := families[k][coordinator := families[k][coordinator].(scheduledAt := None)]];
      }
      var retained := CleanupOutcome(Retained, Min(|oldest|, CLEANUP_BATCH), 0, |oldest| > CLEANUP_BATCH);
      if canonical > now {
        assert false;
        return retained;
      }
      outcome := DeleteBatch(job, canonical, |oldest|, now);
      ghost var n := Min(|old(families)[k]|, CLEANUP_BATCH);
      assert families == ClearedFamily(old(families), k, n);
      assert home == old(home) - Ids(old(families)[k][..n]);
    }

    /** The second half of a due clean-up: delete one batch and continue if rows remain. */
    method DeleteBatch(job: Job, canonical: Time, probed: nat, now: Time) returns (outcome: CleanupOutcome)
      requires job.key in families && families[job.key] != [] && canonical == job.familyExpiresAt
      requires probed == Min(|families[job.key]|, CLEANUP_BATCH + 1)
      modifies this`families, this`home, this`jobs
      ensures var f, n := old(families)[job.key], Min(probed, CLEANUP_BATCH);
              && families == ClearedFamily(old(families), job.key, n)
              && home == old(home) - Ids(f[..n])
              && jobs == (if n < |f| then old(jobs) + multiset{job.(continuation := true, runAt := now)} else old(jobs))
              && outcome == CleanupOutcome(Cleaned, 0, n, n < |f|)
    {
      var n := Min(probed, CLEANUP_BATCH);
      DeleteOldest(job.key, n);
      var hasMore := probed > CLEANUP_BATCH;
      if hasMore {
        jobs := jobs + multiset{Job(job.key, canonical, job.generation, true, now)};
      }
      return CleanupOutcome(Cleaned, 0, n, hasMore);
    }

    /** Delete the n oldest rows of a family, one at a time. */
    method DeleteOldest(k: FamilyKey, n: nat)
      requires k in families && n <= |families[k]|
      modifies this`families, this`home
      ensures home == old(home) - Ids(old(families[k])[..n])
      ensures families == ClearedFamily(old(families), k, n)
    {
      var f := families[k];
      for i := 0 to n
        invariant families == old(families)[k := f[i..]]
        invariant home == old(home) - Ids(f[..i])
      {
        var token := families[k][0];
        home := home - {token.id};
        families := families[k := families[k][1..]];
        assert f[..i + 1] == f[..i] + [token];
        assert Ids(f[..i + 1]) == Ids(f[..i]) + {token.id};
      }
      if families[k] == [] {
        families := families - {k};
      }
    }
  }
}
