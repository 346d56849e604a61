/** Whom a refresh-token rotation is granted to, and what each answer leaves, said of the columns of the
    token rows alone (section 6 of RFC 6749). */
module RefreshOutcomes {
  import opened Base
  import opened RefreshFamilyModel

  /** Row a of family k is the token presented: same ID, workspace, secret and client. */
  predicate Presented(t: State, q: RotateRequest, k: FamilyKey, a: int) {
    && k in t.families && 0 <= a < |t.families[k]| && k.workspace == q.workspace
    && t.families[k][a].id == q.id && t.families[k][a].secret == q.secret && t.families[k][a].client == q.client
  }

  /** The token may be exchanged now: unused, within its own time and its family's, and its account may
      still read and, if the token may write, write. */
  predicate Usable(r: Token, q: RotateRequest) {
    && r.consumedAt == None && r.revokedAt == None
    && q.now < r.expiresAt && r.familyExpiresAt.Some? && q.now < r.familyExpiresAt.value
    && q.principal.Some? && Read in r.scopes && Read in q.principal.value
    && (Write in r.scopes ==> Write in q.principal.value)
  }

  /** The successor's ID is free, and its expiry lies within the next ninety days. */
  ghost predicate NextFits(t: State, q: RotateRequest) {
    && (forall k, a :: k in t.families && 0 <= a < |t.families[k]| ==> t.families[k][a].id != q.nextId)
    && (q.now as real) < q.nextExpiresAt <= (q.now + 7776000000) as real
  }

  lemma FoundAt(t: State, q: RotateRequest, k: FamilyKey, a: int)
    requires Inv(t) && k in t.families && 0 <= a < |t.families[k]| && t.families[k][a].id == q.id
    ensures q.id in t.home && t.home[q.id] == k && Position(t.families[k], q.id) == a && Sound(t.families[k], t.clock)
    ensures ResolveDeadline(t.families[k]) == t.families[k][a].familyExpiresAt
    ensures t.families[k][a].familyExpiresAt.Some?
  {
    hide Rooted, JobsAgree, CleanupPending, ResolveDeadline, Position;
    AtPosition(t.families[k], a);
    ProbesFindFamilyDeadline(t.families[k], t.clock, t.families[k]);
  }

  lemma PresentedSomewhere(t: State, q: RotateRequest)
    requires Presents(t, q)
    ensures exists k, a :: Presented(t, q, k, a)
  {
    hide Position;
    assert Presented(t, q, t.home[q.id], Position(t.families[t.home[q.id]], q.id));
  }

  lemma NextIdFree(t: State, id: Id)
    requires Inv(t)
    ensures id !in t.home <==> forall k, a :: k in t.families && 0 <= a < |t.families[k]| ==> t.families[k][a].id != id
  {
    hide AllSound, Rooted, JobsAgree, CleanupPending, Position;
    if id in t.home {
      var k := t.home[id];
      assert t.families[k][Position(t.families[k], id)].id == id;
    }
  }

  /** The answer to a presented token, in the order of the checks. */
  lemma PresentedAnswer(t: State, q: RotateRequest, k: FamilyKey, a: int)
    requires Inv(t) && Admissible(t, Rotation(q)) && Presented(t, q, k, a)
    ensures var r, answer := t.families[k][a], Rotate(t, q).1;
            if r.consumedAt.Some? || r.revokedAt.Some? then answer == Replayed
            else if !Usable(r, q) then answer == Invalid
            else if !NextFits(t, q) then answer == RotateError
            else answer == Rotated(r.scopes)
  {
    hide Inv, ResolveDeadline, Position, Sound;
    FoundAt(t, q, k, a);
    NextIdFree(t, q.nextId);
  }

  /** A rotation is granted exactly to a stored token that is presented with its own secret, client and
      workspace and is usable, for a successor that fits. */
  lemma RotationExactly(t: State, q: RotateRequest)
    requires Inv(t) && Admissible(t, Rotation(q))
    ensures Rotate(t, q).1.Rotated? <==>
              exists k, a :: Presented(t, q, k, a) && Usable(t.families[k][a], q) && NextFits(t, q)
    ensures (forall k, a :: !Presented(t, q, k, a)) ==> Rotate(t, q) == (t.(clock := q.now), Invalid)
  {
    hide Inv, Rotate, Admissible, Usable, NextFits, Presents;
    if k, a :| Presented(t, q, k, a) {
      PresentedAnswer(t, q, k, a);
      forall k', a' | Presented(t, q, k', a') ensures k' == k && a' == a {
        FoundAt(t, q, k, a);
        FoundAt(t, q, k', a');
      }
      UsableIsUnspent(t.families[k][a], q);
    } else {
      InvalidWhenNotPresented(t, q);
    }
  }

  lemma UsableIsUnspent(r: Token, q: RotateRequest)
    ensures Usable(r, q) ==> r.consumedAt.None? && r.revokedAt.None?
  {
  }

  lemma InvalidWhenNotPresented(t: State, q: RotateRequest)
    requires forall k, a :: !Presented(t, q, k, a)
    ensures Rotate(t, q) == (t.(clock := q.now), Invalid)
  {
    hide ResolveDeadline, AdmittedExpiry, Grantable, Position, Presented, Presents;
    if Presents(t, q) { PresentedSomewhere(t, q); }
  }

  /** What no rotation changes of a row, apart from its clean-up schedule and its end. */
  predicate SameBody(r: Token, r': Token) {
    && r'.account == r.account && r'.id == r.id && r'.secret == r.secret && r'.client == r.client
    && r'.scopes == r.scopes && r'.resource == r.resource && r'.createdAt == r.createdAt && r'.expiresAt == r.expiresAt
    && r'.familyExpiresAt == r.familyExpiresAt
  }

  /** A granted rotation consumes the row, links it to its successor, and appends that: the next ID and
      secret, the same account, client, resource and scopes, and an expiry no later than was asked for and
      than the family's. */
  lemma RotationEffect(t: State, q: RotateRequest, k: FamilyKey, a: int)
    requires Inv(t) && Admissible(t, Rotation(q)) && Presented(t, q, k, a) && Rotate(t, q).1.Rotated?
    ensures var f, t' := t.families[k], Rotate(t, q).0;
            && k in t'.families && |t'.families[k]| == |f| + 1
            && t'.families == t.families[k := t'.families[k]] && t'.home == t.home[q.nextId := k]
            && var f' := t'.families[k];
            && (forall b :: 0 <= b < |f| ==>
                  && SameBody(f[b], f'[b]) && f'[b].revokedAt == f[b].revokedAt
                  && f'[b].consumedAt == (if b == a then Some(q.now) else f[b].consumedAt)
                  && f'[b].rotatedTo == (if b == a then Some(q.nextId) else f[b].rotatedTo))
            && f'[|f|].(expiresAt := 0) ==
               Token(f[a].account, q.nextId, q.nextSecret, f[a].client, f[a].scopes, f[a].resource,
                     f[a].familyExpiresAt, None, None, q.now, 0, None, None, None)
            && f'[|f|].expiresAt <= f[a].familyExpiresAt.value
            && f'[|f|].expiresAt as real <= q.nextExpiresAt
            && (f'[|f|].expiresAt == f[a].familyExpiresAt.value || q.nextExpiresAt < (f'[|f|].expiresAt + 1) as real)
  {
    hide Inv, ResolveDeadline, Position;
    FoundAt(t, q, k, a);
    PresentedAnswer(t, q, k, a);
  }

  /** A refused or replayed token takes its whole family with it: every row that was not consumed or
      revoked is revoked now, and nothing else of any row but the schedule changes. */
  lemma RefusalRevokesFamily(t: State, q: RotateRequest, k: FamilyKey, a: int)
    requires Inv(t) && Admissible(t, Rotation(q)) && Presented(t, q, k, a)
    requires Rotate(t, q).1 == Replayed || Rotate(t, q).1 == Invalid
    ensures var f, t' := t.families[k], Rotate(t, q).0;
            && t'.home == t.home && k in t'.families && |t'.families[k]| == |f|
            && t'.families == t.families[k := t'.families[k]]
            && var f' := t'.families[k];
            forall b :: 0 <= b < |f| ==>
              && SameBody(f[b], f'[b]) && f'[b].consumedAt == f[b].consumedAt && f'[b].rotatedTo == f[b].rotatedTo
              && f'[b].revokedAt ==
                 if f[b].consumedAt == None && f[b].revokedAt == None then Some(q.now) else f[b].revokedAt
  {
    hide Inv, ResolveDeadline, Position;
    FoundAt(t, q, k, a);
  }

  /** A rotation that throws, over the ID or the expiry of the successor, leaves everything as it was. */
  lemma ErrorChangesNothing(t: State, q: RotateRequest)
    requires Rotate(t, q).1 == RotateError
    ensures Rotate(t, q).0 == t.(clock := q.now)
  {
    hide ResolveDeadline, AdmittedExpiry, Grantable, Position, Presents;
  }

  /** The code exchange starts a family exactly for a free ID and an expiry within ninety days, and the
      family is the one token asked for. */
  lemma IssueExactly(t: State, q: IssueRequest)
    requires Inv(t) && Admissible(t, Exchange(q))
    ensures Issue(t, q).1 == Issued <==>
              && (forall k, a :: k in t.families && 0 <= a < |t.families[k]| ==> t.families[k][a].id != q.refreshId)
              && (q.now as real) < q.expiresAt <= (q.now + 7776000000) as real
    ensures Issue(t, q).1 != Issued ==> Issue(t, q).0 == t.(clock := q.now)
    ensures Issue(t, q).1 == Issued ==>
              var t' := Issue(t, q).0;
              var expiry := q.expiresAt.Floor;
              var k := FamilyKey(q.workspace, q.refreshId);
              && t'.families == t.families[k := [Token(q.account, q.refreshId, q.secret, q.client, q.scopes, q.resource,
                                                       Some(expiry), Some(expiry), Some(-1), q.now, expiry,
                                                       None, None, None)]]
              && t'.home == t.home[q.refreshId := k] && t'.jobs == t.jobs + multiset{Job(k, expiry, -1, false, expiry)}
  {
    hide Inv;
    NextIdFree(t, q.refreshId);
  }

  /** A clean-up deletes rows exactly when its family exists and it continues an earlier one or carries the
      schedule of the oldest row, and then the oldest hundred at most. */
  lemma CleanupExactly(t: State, job: Job, now: Time)
    requires Inv(t) && Admissible(t, Fire(job, now))
    ensures var t' := Cleanup(t, job, now).0;
            if job.key in t.families
               && (job.continuation || (t.families[job.key][0].scheduledAt == Some(job.familyExpiresAt)
                                        && t.families[job.key][0].generation == Some(job.generation)))
            then
              var f := t.families[job.key];
              && RowsOf(t', job.key) == f[if |f| <= 100 then |f| else 100..]
              && (forall k :: k != job.key ==> RowsOf(t', k) == RowsOf(t, k))
            else t'.families == t.families && t'.home == t.home
  {
    hide Indexed, Rooted, CleanupPending;
    if job.key in t.families { assert t.families[job.key] != []; }
  }
}
