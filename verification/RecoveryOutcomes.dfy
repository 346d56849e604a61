/** What reserving, settling and recovering an adapter command answer and leave, said of the columns of
    commands, recoveries and runs alone. */
module RecoveryOutcomes {
  import opened Base
  import opened RunnerTables
  import opened RecoveryModel

  predicate LeaseLive(r: QueuedRun, now: Time) { r.expires.Some? && now < r.expires.value }

  /** The run is what the request says it is, leased to the actor of the request and not changed since. */
  predicate Authority(r: QueuedRun, q: Request, now: Time) {
    && r.project == q.project && r.item == q.item && r.runnerType == q.runnerType && r.profile == q.profile
    && r.generation == q.runGeneration && r.leaseGeneration == q.leaseGeneration && r.owner == Some(q.actor)
    && LeaseLive(r, now)
  }

  /** A command is reserved exactly under a new key and a new ID, by the authority over an existing run, and
      is then stored as it was sent. */
  lemma ReserveExactly(t: State, id: Id, fingerprint: Id, q: Request, now: Time)
    ensures Reserve(t, id, fingerprint, q, now).1 == Reserved <==>
              && (forall c :: 0 <= c < |t.commands| ==> t.commands[c].request.key != q.key && t.commands[c].id != id)
              && q.run < |t.runner.runs| && Authority(t.runner.runs[q.run], q, now)
    ensures Reserve(t, id, fingerprint, q, now).0 ==
              if Reserve(t, id, fingerprint, q, now).1 == Reserved
              then t.(clock := now, commands := t.commands + [Command(id, fingerprint, q, now, None)])
              else t.(clock := now)
  {
    hide ById, ByKey;
  }

  /** A key that was used answers for the same request with its command, and for no other. */
  lemma ReservationRepeats(t: State, id: Id, fingerprint: Id, q: Request, now: Time, c: nat)
    requires Inv(t) && c < |t.commands| && t.commands[c].request.key == q.key
    ensures Reserve(t, id, fingerprint, q, now).1 ==
              if t.commands[c].request == q then ReserveReplayed(t.commands[c]) else ReserveRefused
  {
    hide ById, ByKey, CommandsBound, Numbered, Disjoint, WithinCommand, AuthorityGone;
  }

  /** A settlement is taken exactly for a stored command of that fingerprint that has none, answers a
      repetition of its own outcome, and refuses all else. */
  lemma SettleExactly(t: State, id: Id, fingerprint: Id, outcome: Id, now: Time, c: nat)
    requires Inv(t) && c < |t.commands| && t.commands[c].id == id
    ensures Settle(t, id, fingerprint, outcome, now) ==
              if t.commands[c].fingerprint == fingerprint && t.commands[c].settlement == None then
                var settled := t.commands[c].(settlement := Some(Settlement(outcome, now)));
                (t.(clock := now, commands := t.commands[c := settled]), Settled)
              else
                (t.(clock := now),
                 if t.commands[c].fingerprint == fingerprint && t.commands[c].settlement.Some?
                    && t.commands[c].settlement.value.outcome == outcome then SettleReplayed
                 else SettleRefused)
  {
    hide ById, ByKey, CommandsBound, Numbered, Disjoint, WithinCommand, AuthorityGone;
  }

  lemma UnknownSettlesNothing(t: State, id: Id, fingerprint: Id, outcome: Id, now: Time)
    requires forall c :: 0 <= c < |t.commands| ==> t.commands[c].id != id
    ensures Settle(t, id, fingerprint, outcome, now) == (t.(clock := now), SettleRefused)
  {
    hide ById;
  }

  // ---------------------------------------------------------------- recovery

  function RecoveriesOf(s: seq<Recovery>, c: int): set<int> { set i | 0 <= i < |s| && s[i].command == c }

  lemma RecoveriesGrow(s: seq<Recovery>, c: int)
    requires s != []
    ensures var n := |s| - 1;
            && n !in RecoveriesOf(s[..n], c)
            && RecoveriesOf(s, c) == RecoveriesOf(s[..n], c) + if s[n].command == c then {n} else {}
  {
  }

  lemma {:induction false} CountIsRecoveries(s: seq<Recovery>, c: nat)
    ensures Count(s, c) == |RecoveriesOf(s, c)|
  {
    hide RecoveriesOf;
    if s == [] {
      NoRecoveries(c);
    } else {
      CountIsRecoveries(s[..|s| - 1], c);
      RecoveriesGrow(s, c);
    }
  }

  lemma NoRecoveries(c: int)
    ensures RecoveriesOf([], c) == {}
  {
  }

  /** The recoveries of a command have all run out exactly if the one with the highest generation has. */
  lemma LatestOutlasts(s: seq<Recovery>, c: nat, now: Time)
    requires Numbered(s) && Disjoint(s) && forall i :: 0 <= i < |s| ==> s[i].claimedAt < s[i].expiresAt
    ensures (Latest(s, c) >= 0 && s[Latest(s, c)].expiresAt > now) <==>
              exists i :: 0 <= i < |s| && s[i].command == c && s[i].expiresAt > now
  {
    hide Latest, Count, Numbered;
    LatestIsCount(s, c);
    var n := Latest(s, c);
    forall i | 0 <= i < |s| && s[i].command == c ensures n >= 0 && s[i].expiresAt <= s[n].expiresAt {
      assert i <= n;
    }
  }

  /** Command c may be taken over: it is the one asked for and not settled, the authority that reserved it
      is gone, nobody else has the run, and every earlier recovery ran out. */
  ghost predicate Recoverable(t: State, q: RecoveryRequest, now: Time, c: int) {
    && 0 <= c < |t.commands| && t.commands[c].id == q.commandId && t.commands[c].fingerprint == q.fingerprint
    && t.commands[c].settlement == None
    && var original := t.commands[c].request;
    && original.run < |t.runner.runs|
    && var r := t.runner.runs[original.run];
    && (LeaseLive(r, now) ==>
          && r.owner == Some(q.actor)
          && (r.generation == original.runGeneration && r.leaseGeneration == original.leaseGeneration ==>
                original.actor != q.actor))
    && (forall i :: 0 <= i < |t.recoveries| && t.recoveries[i].command == c ==> t.recoveries[i].expiresAt <= now)
  }

  lemma CommandFound(t: State, id: Id, c: int)
    requires Inv(t) && 0 <= c < |t.commands| && t.commands[c].id == id
    ensures ById(t.commands, id) == c && t.commands[c].request.run < |t.runner.runs|
  {
    hide ById, Numbered, Disjoint, WithinCommand, AuthorityGone;
  }

  lemma RecoveriesLast(t: State, now: Time, c: nat)
    requires Inv(t)
    ensures (Latest(t.recoveries, c) >= 0 && t.recoveries[Latest(t.recoveries, c)].expiresAt > now) <==>
              exists i :: 0 <= i < |t.recoveries| && t.recoveries[i].command == c && t.recoveries[i].expiresAt > now
    ensures (if Latest(t.recoveries, c) >= 0 then t.recoveries[Latest(t.recoveries, c)].generation else 0) ==
              |RecoveriesOf(t.recoveries, c)|
  {
    hide Latest, Count, Numbered, Disjoint, DistinctCommands, CommandsBound, AuthorityGone;
    LatestOutlasts(t.recoveries, c, now);
    LatestIsCount(t.recoveries, c);
    CountIsRecoveries(t.recoveries, c);
  }

  /** A recovery is granted exactly under a new key, for a command that may be taken over. */
  lemma RecoverExactly(t: State, q: RecoveryRequest, now: Time)
    requires Inv(t)
    ensures Recover(t, q, now).1.Recovered? <==>
              && (forall i :: 0 <= i < |t.recoveries| ==> t.recoveries[i].request.key != q.key)
              && exists c :: Recoverable(t, q, now, c)
    ensures !Recover(t, q, now).1.Recovered? ==> Recover(t, q, now).0 == t.(clock := now)
  {
    hide Inv, ById, RecoveryByKey, Latest, Count;
    var b := ById(t.commands, q.commandId);
    if b >= 0 { RecoveriesLast(t, now, b); CommandFound(t, q.commandId, b); }
    forall c | Recoverable(t, q, now, c) ensures c == b { CommandFound(t, q.commandId, c); }
    if Recover(t, q, now).1.Recovered? { assert Recoverable(t, q, now, b); }
  }

  /** What a recovery leaves: the command's next one, numbered by how many there were, for the seconds
      asked for, and nothing else. */
  lemma RecoverEffect(t: State, q: RecoveryRequest, now: Time, c: nat)
    requires Inv(t) && Recoverable(t, q, now, c) && Recover(t, q, now).1.Recovered?
    ensures var row := Recovery(c, |RecoveriesOf(t.recoveries, c)| + 1, q, now, now + 1000 * q.leaseSeconds);
            Recover(t, q, now) == (t.(clock := now, recoveries := t.recoveries + [row]), Recovered(row))
  {
    hide Inv, ById, RecoveryByKey, Latest, Count, RecoveriesOf, Recoverable;
    RecoverableIsNamed(t, q, now, c);
    CommandFound(t, q.commandId, c);
    RecoveriesLast(t, now, c);
  }

  lemma RecoverableIsNamed(t: State, q: RecoveryRequest, now: Time, c: int)
    requires Recoverable(t, q, now, c)
    ensures 0 <= c < |t.commands| && t.commands[c].id == q.commandId
  {
  }

  /** A key that was used answers for the same request with its recovery, and for no other. */
  lemma RecoveryRepeats(t: State, q: RecoveryRequest, now: Time, i: nat)
    requires i < |t.recoveries| && t.recoveries[i].request.key == q.key
    requires forall j :: i < j < |t.recoveries| ==> t.recoveries[j].request.key != q.key
    ensures Recover(t, q, now).1 ==
              if t.recoveries[i].request == q then RecoverReplayed(t.recoveries[i]) else RecoverRefused
  {
    hide RecoveryByKey, ById, Latest, Holds;
  }
}
