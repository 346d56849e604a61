/** The adapter-command and recovery mutations over their two tables, branch by branch, against the
    run table of the scheduler. */
module AdapterCommands {
  import opened Base
  import opened RunnerTables
  import opened RecoveryModel
  import S = RunnerRuns

  class AdapterCommands {
    const runner: S.RunnerRuns
    var commands: seq<Command>
    var recoveries: seq<Recovery>
    ghost var clock: Time

    ghost function Contents(): State
      reads this, runner
    {
      State(runner.Contents(), commands, recoveries, clock)
    }

    ghost predicate Valid()
      reads this, runner
    {
      Inv(Contents())
    }

    constructor (runner: S.RunnerRuns)
      ensures Valid() && this.runner == runner && commands == [] && recoveries == []
    {
      this.runner := runner;
      commands, recoveries, clock := [], [], 0;
    }

    /** Refused, or whether the run is exactly as the requester last saw it under its live lease. */
    method RequireAuthority(run: QueuedRun, q: Request, now: Time) returns (ok: bool)
      ensures ok <==> Authorised(run, q, now)
    {
      if run.project != q.project || run.item != q.item {
        return false;
      }
      if run.runnerType != q.runnerType || run.profile != q.profile {
        return false;
      }
      if run.generation != q.runGeneration {
        return false;
      }
      if run.leaseGeneration != q.leaseGeneration {
        return false;
      }
      if run.owner != Some(q.actor) {
        return false;
      }
      if run.expires.None? || run.expires.value <= now {
        return false;
      }
      return true;
    }

    method Reserve(id: Id, fingerprint: Id, q: Request, now: Time) returns (outcome: ReserveOutcome)
      requires Valid() && clock <= now
      modifies this
      ensures Valid()
      ensures (Contents(), outcome) == RecoveryModel.Reserve(old(Contents()), id, fingerprint, q, now)
    {
      hide Inv, Authorised, ById, ByKey;
      ReserveKeepsInv(Contents(), id, fingerprint, q, now);
      clock := now;
      var replay := ByKey(commands, q.key);
      if replay >= 0 {
        if commands[replay].request != q {
          return ReserveRefused;
        }
        return ReserveReplayed(commands[replay]);
      }
      if ById(commands, id) >= 0 {
        return ReserveRefused;
      }
      if q.run >= |runner.runs| {
        return ReserveRefused;
      }
      var authorised := RequireAuthority(runner.runs[q.run], q, now);
      if !authorised {
        return ReserveRefused;
      }
      commands := commands + [Command(id, fingerprint, q, now, None)];
      return Reserved;
    }

    method Settle(id: Id, fingerprint: Id, result: Id, now: Time) returns (outcome: SettleOutcome)
      requires Valid() && clock <= now
      modifies this
      ensures Valid()
      ensures (Contents(), outcome) == RecoveryModel.Settle(old(Contents()), id, fingerprint, result, now)
    {
      hide Inv, ById;
      SettleKeepsInv(Contents(), id, fingerprint, result, now);
      clock := now;
      var row := ById(commands, id);
      if row < 0 || commands[row].fingerprint != fingerprint {
        return SettleRefused;
      }
      if commands[row].settlement.Some? {
        if commands[row].settlement.value.outcome != result {
          return SettleRefused;
        }
        return SettleReplayed;
      }
      commands := commands[row := commands[row].(settlement := Some(Settlement(result, now)))];
      return Settled;
    }

    method ClaimRecovery(q: RecoveryRequest, now: Time) returns (outcome: RecoverOutcome)
      requires Valid() && Admissible(Contents(), OnRecover(q, now))
      modifies this
      ensures Valid()
      ensures (Contents(), outcome) == Recover(old(Contents()), q, now)
    {
      hide Inv, ById, RecoveryByKey, Latest;
      RecoverKeepsInv(Contents(), q, now);
      clock := now;
      var replay := RecoveryByKey(recoveries, q.key);
      if replay >= 0 {
        if recoveries[replay].request != q {
          return RecoverRefused;
        }
        return RecoverReplayed(recoveries[replay]);
      }
      var row := ById(commands, q.commandId);
      if row < 0 || commands[row].settlement.Some? {
        return RecoverRefused;
      }
      var reservation := commands[row].request;
      if commands[row].fingerprint != q.fingerprint || reservation.run >= |runner.runs| {
        return RecoverRefused;
      }
      var run := runner.runs[reservation.run];
      var currentLeaseLive := run.expires.Some? && run.expires.value > now;
      var originalAuthorityStillLive := currentLeaseLive
        && run.generation == reservation.runGeneration
        && run.leaseGeneration == reservation.leaseGeneration
        && run.owner == Some(reservation.actor);
      if originalAuthorityStillLive {
        return RecoverRefused;
      }
      if currentLeaseLive && run.owner != Some(q.actor) {
        return RecoverRefused;
      }
      var latest := Latest(recoveries, row);
      if latest >= 0 && recoveries[latest].expiresAt > now {
        return RecoverRefused;
      }
      var generation := (if latest >= 0 then recoveries[latest].generation else 0) + 1;
      recoveries := recoveries + [Recovery(row, generation, q, now, now + q.leaseSeconds * 1000)];
      return Recovered(recoveries[|recoveries| - 1]);
    }
  }
}
