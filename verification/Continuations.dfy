/** The continuation mutations of three modules over the tables, branch by branch; runs and items
    belong to the scheduler's object. */
module Continuations {
  import opened Base
  import opened ContinuationModel
  import Tables = RunnerTables
  import R = RunnerModel
  import S = RunnerRuns

  /** Sort some rows into policy order. */
  function SortByPolicy(s: seq<Continuation>, ids: seq<nat>): (r: seq<nat>)
    requires RowsOf(s, ids) && forall a, b :: 0 <= a < b < |ids| ==> ids[a] != ids[b]
    ensures RowsOf(s, r) && InPolicyOrder(s, r)
    ensures forall i :: i in r <==> i in ids
  {
    if ids == [] then []
    else
      var front := SortByPolicy(s, ids[..|ids| - 1]);
      assert ids == ids[..|ids| - 1] + [ids[|ids| - 1]];
      InsertByPolicy(s, front, ids[|ids| - 1])
  }

  /** There is one way to list some rows in policy order. */
  lemma {:induction false} OrderedListsAgree(s: seq<Continuation>, a: seq<nat>, b: seq<nat>)
    requires RowsOf(s, a) && RowsOf(s, b) && InPolicyOrder(s, a) && InPolicyOrder(s, b)
    requires forall i :: i in a <==> i in b
    ensures a == b
  {
    if a == [] {
      HeadIsMember(b);
    } else {
      LastIsLeastUrgent(s, a, b);
      var x, y := a[..|a| - 1], b[..|b| - 1];
      PrefixMembers(s, a);
      PrefixMembers(s, b);
      forall i: nat ensures i in x <==> i in y {
        assert i in a[..|a| - 1] <==> i in a && i != a[|a| - 1];
        assert i in b[..|b| - 1] <==> i in b && i != b[|b| - 1];
      }
      OrderedListsAgree(s, x, y);
      assert a == x + [a[|a| - 1]] && b == y + [b[|b| - 1]];
    }
  }

  lemma HeadIsMember(b: seq<nat>)
    ensures b != [] ==> b[0] in b
  {
  }

  lemma PrefixMembers(s: seq<Continuation>, a: seq<nat>)
    requires RowsOf(s, a) && InPolicyOrder(s, a) && a != []
    ensures forall i :: i in a[..|a| - 1] <==> i in a && i != a[|a| - 1]
  {
    var n := |a| - 1;
    assert forall c :: 0 <= c < n ==> PolicyBefore(s, a[c], a[n]);
    forall i | i in a && i != a[n] ensures i in a[..n] {
      var c :| 0 <= c < |a| && a[c] == i;
      assert a[..n][c] == i;
    }
  }

  lemma LastIsLeastUrgent(s: seq<Continuation>, a: seq<nat>, b: seq<nat>)
    requires RowsOf(s, a) && RowsOf(s, b) && InPolicyOrder(s, a) && InPolicyOrder(s, b) && a != []
    requires forall i :: i in a <==> i in b
    ensures b != [] && a[|a| - 1] == b[|b| - 1]
  {
    var x := a[|a| - 1];
    assert x in b;
    var y := b[|b| - 1];
    assert y in a;
    var c :| 0 <= c < |b| && b[c] == x;
    var d :| 0 <= d < |a| && a[d] == y;
    assert c < |b| - 1 ==> PolicyBefore(s, x, y);
    assert d < |a| - 1 ==> PolicyBefore(s, y, x);
  }

  class Continuations {
    var rows: seq<Continuation>
    var commands: map<Id, Stored>
    var queued: map<Id, QueueStored>
    const runner: S.RunnerRuns

    ghost function Contents(): State
      reads this, runner
    {
      State(rows, runner.Contents(), commands, queued)
    }

    ghost predicate Valid()
      reads this, runner
    {
      Inv(Contents())
    }

    constructor (runner: S.RunnerRuns)
      requires runner.Valid() && runner.runs == []
      ensures Valid() && this.runner == runner && rows == []
    {
      this.runner := runner;
      rows, commands, queued := [], map[], map[];
    }

    /** Record a proposal; the source item must exist. */
    method Propose(c: Continuation, now: Time) returns (id: Option<nat>)
      requires Valid() && runner.clock <= now && c.status == Proposed && c.generation == 1 && c.result.None?
               && c.createdAt == now
      modifies this`rows, runner`clock
      ensures Valid()
      ensures Contents() == ContinuationModel.Propose(old(Contents()), c, now)
      ensures id == if c.source in runner.items then Some(|old(rows)|) else None
    {
      hide Inv;
      ProposeKeepsInv(Contents(), c, now);
      runner.clock := now;
      if c.source !in runner.items {
        return None;
      }
      rows := rows + [c];
      return Some(|rows| - 1);
    }

    /** Read a continuation, settling it first if its time is over. */
    method Get(id: Id, now: Time) returns (continuation: Option<Continuation>)
      requires Valid() && runner.clock <= now
      modifies this`rows, runner`clock
      ensures Valid()
      ensures Contents() == Expire(old(Contents()), id, now)
      ensures continuation == if id < |rows| then Some(rows[id]) else None
    {
      hide Inv;
      ExpireKeepsInv(Contents(), id, now);
      runner.clock := now;
      if id >= |rows| {
        return None;
      }
      var row := rows[id];
      if row.expiresAt.Some? && row.expiresAt.value <= now
        && (row.status == Proposed || row.status == Deferred || row.status == Approved) {
        rows := rows[id := row.(status := ExpiredStatus, generation := row.generation + 1)];
      } else {
        assert rows[id := row] == rows;
      }
      return Some(rows[id]);
    }

    /** Resolve a continuation, or edit it, once for each key. */
    method Perform(q: Request, key: Option<Id>, now: Time) returns (outcome: Outcome)
      requires Valid() && runner.clock <= now
      modifies this, runner`clock
      ensures Valid()
      ensures (Contents(), outcome) == ContinuationModel.Perform(old(Contents()), q, key, now)
    {
      hide Inv;
      PerformKeepsInv(Contents(), q, key, now);
      runner.clock := now;
      if key.Some? && key.value in commands {
        if commands[key.value].request != q {
          return Refused;
        }
        return Replayed(commands[key.value].result);
      }
      if q.id >= |rows| {
        return Refused;
      }
      if q.Resolve? {
        outcome := ResolveRow(q, now);
      } else {
        outcome := EditRow(q, now);
      }
      if outcome.Accepted? && key.Some? {
        commands := commands[key.value := Stored(q, outcome.continuation)];
      }
    }

    method ResolveRow(q: Request, now: Time) returns (outcome: Outcome)
      requires q.Resolve? && q.id < |rows|
      modifies this`rows
      ensures outcome == match Resolved(old(rows)[q.id], q, now) case None => Refused case Some(c) => Accepted(c)
      ensures rows == if outcome.Accepted? then old(rows)[q.id := outcome.continuation] else old(rows)
    {
      var before := rows;
      rows := rows[q.id := ExpireIfNeeded(rows[q.id], now)];
      var continuation := rows[q.id];
      var next := Transition(q.command, continuation.status);
      if continuation.generation != q.expectedGeneration || next.None? {
        rows := before;
        return Refused;
      }
      if q.command == Consume {
        if q.result.None? || !FitsAction(q.result.value, continuation.action) {
          rows := before;
          return Refused;
        }
      } else if q.result.Some? {
        rows := before;
        return Refused;
      }
      rows := rows[q.id := continuation.(status := next.value, generation := q.expectedGeneration + 1,
        result := q.result)];
      return Accepted(rows[q.id]);
    }

    method EditRow(q: Request, now: Time) returns (outcome: Outcome)
      requires q.Edit? && q.id < |rows|
      modifies this`rows
      ensures outcome == match Edited(old(rows)[q.id], q, now) case None => Refused case Some(c) => Accepted(c)
      ensures rows == if outcome.Accepted? then old(rows)[q.id := outcome.continuation] else old(rows)
    {
      var continuation := rows[q.id];
      if continuation.generation != q.expectedGeneration {
        return Refused;
      }
      if continuation.status != Proposed && continuation.status != Deferred {
        return Refused;
      }
      if continuation.expiresAt.Some? && continuation.expiresAt.value <= now {
        return Refused;
      }
      rows := rows[q.id := continuation.(instruction := q.instruction, generation := continuation.generation + 1)];
      return Accepted(rows[q.id]);
    }

    /** The item is ready and not held by another; the probes for live and retryable runs find nothing. */
    method TargetIsDispatchable(target: Id, supervisor: Id, now: Time) returns (ok: bool)
      requires R.Inv(runner.Contents()) && target in runner.items
      ensures ok == ItemAccepts(runner.items[target], supervisor, now)
    {
      hide R.Inv;
      var item := runner.items[target];
      if item.status != R.Ready {
        return false;
      }
      if item.holder.Some? && item.expires.Some? && item.expires.value > now && item.holder.value != supervisor {
        return false;
      }
      R.ReadyItemHasNoOpenRun(runner.Contents(), target);
      var runs := runner.runs;
      assert forall i :: 0 <= i < |runs| && runs[i].item == target ==> !R.OpenFor(runner.Contents(), target, i);
      var live := exists i :: 0 <= i < |runs| && runs[i].item == target && R.Active5(runs[i].status);
      var retryable := exists i ::
        0 <= i < |runs| && runs[i].item == target && runs[i].status == Tables.Failed && runs[i].nextRetryAt.Some?;
      if live || retryable {
        assert false;
        return false;
      }
      return true;
    }

    /** Every check the supervisor makes before its first write. */
    method MayQueue(q: QueueRequest, now: Time) returns (ok: bool)
      requires Valid()
      ensures ok == Queueable(Contents(), q, now)
    {
      hide R.Inv, RunsPaired, ResultsFit, QueuedBehind;
      if q.id >= |rows| {
        return false;
      }
      var continuation := rows[q.id];
      if IsExpired(continuation, now) {
        return false;
      }
      if continuation.generation != q.expectedGeneration {
        return false;
      }
      if !continuation.forSupervisor && q.mode != Human {
        return false;
      }
      if (q.mode == Automatic && continuation.approval != Automatic)
        || (q.mode == Notify && continuation.approval != Notify) {
        return false;
      }
      if !LiveStatus(continuation.status) || continuation.action.RequestDecision? {
        return false;
      }
      if continuation.source !in runner.items {
        return false;
      }
      if !continuation.action.CreateItem? {
        if continuation.action.item !in runner.items {
          return false;
        }
        ok := TargetIsDispatchable(continuation.action.item, q.supervisor, now);
        return ok;
      }
      return true;
    }

    /** Queue a run for one continuation. From its first write on, nothing fails any more. */
    method QueueOne(q: QueueRequest, key: Option<Id>, newItem: Id, now: Time) returns (outcome: QueueOutcome)
      requires Valid() && runner.clock <= now && 0 < now && newItem !in runner.items
      requires LeaseTerms(q.leaseSeconds, q.maxAttempts, q.backoff)
      modifies this, runner
      ensures Valid()
      ensures (Contents(), outcome) == Queue(old(Contents()), q, key, newItem, now)
    {
      hide Inv, Queueable, R.Dispatch;
      QueueKeepsInv(Contents(), q, key, newItem, now);
      ClockKeepsInv(Contents(), now);
      SameQueueable(Contents(), q, now);
      ghost var t := Contents();
      runner.clock := now;
      if key.Some? && key.value in queued {
        if queued[key.value].request != q {
          return QueueRefused;
        }
        return QueueReplayed(queued[key.value].result);
      }
      var ok := MayQueue(q, now);
      if !ok {
        return QueueRefused;
      }
      outcome := QueueWrites(q, newItem, now, t);
      if key.Some? {
        queued := queued[key.value := QueueStored(q, outcome.result)];
      }
    }

    /** The writes of a queueing: approve, create the item, dispatch, consume. */
    method QueueWrites(q: QueueRequest, newItem: Id, now: Time, ghost t: State) returns (outcome: QueueOutcome)
      requires Inv(t) && Contents() == WithClock(t, now) && t.runner.clock <= now && 0 < now && newItem !in runner.items
      requires LeaseTerms(q.leaseSeconds, q.maxAttempts, q.backoff) && Queueable(t, q, now)
      modifies this`rows, runner
      ensures (Contents(), outcome) == Queue(t, q, None, newItem, now)
    {
      hide Inv, Queueable, R.Inv, R.Dispatch;
      QueueableFacts(t, q, now);
      QueueableTarget(t, q, now);
      QueueDispatches(t, q, newItem, now);
      RunnerIsSound(t, now);
      var continuation := rows[q.id];
      if continuation.status == Proposed || continuation.status == Deferred {
        continuation := continuation.(status := Approved, generation := continuation.generation + 1);
        rows := rows[q.id := continuation];
      }
      var target: Id;
      if continuation.action.CreateItem? {
        target := newItem;
        runner.items := runner.items[newItem := R.Item(continuation.action.project, R.Ready, None, None, 0)];
        NewItemKeepsRunner(t.runner.(clock := now), newItem,
          R.Item(continuation.action.project, R.Ready, None, None, 0));
      } else {
        target := continuation.action.item;
      }
      var dispatchable := TargetIsDispatchable(target, q.supervisor, now);
      if !dispatchable {
        assert false;
        return QueueRefused;
      }
      var profile := ProfileFor(continuation.action, q.profile);
      var request := R.DispatchRequest(
        now, target, runner.items[target].claimGeneration, q.supervisor, q.runnerType, profile, Some(q.id),
        q.leaseSeconds, q.maxAttempts, q.backoff);
      assert request == DispatchFor(t.rows[q.id], q, target,
               WithTarget(t.runner, t.rows[q.id].action, newItem).items[target].claimGeneration, now);
      SameDispatch(WithTarget(t.runner, continuation.action, newItem), now, request);
      var dispatch := runner.Dispatch(request);
      if !dispatch.Dispatched? {
        assert false;
        return QueueRefused;
      }
      var run := dispatch.id;
      rows := rows[q.id := continuation.(status := Consumed, generation := continuation.generation + 1,
        result := Some(QueuedFor(target, run)))];
      assert rows == t.rows[q.id := ConsumedBy(t.rows[q.id], target, run)];
      return Dispatched(QueueResult(q.id, target, run));
    }

    /** The candidates of a policy pass, most urgent first. */
    method ReadCandidates(keep: set<Id>, now: Time) returns (candidates: seq<nat>)
      ensures candidates == Candidates(rows, keep, now, |rows|)
    {
      hide Candidates, InPolicyOrder, SortByPolicy;
      var found: seq<nat> := [];
      var statuses := [Proposed, Deferred];
      for s := 0 to |statuses|
        invariant RowsOf(rows, found) && forall a, b :: 0 <= a < b < |found| ==> found[a] != found[b]
        invariant forall i :: i in found <==>
                    0 <= i < |rows| && rows[i].status in statuses[..s] && i in keep && IsCandidate(rows[i], now)
      {
        for i := 0 to |rows|
          invariant RowsOf(rows, found) && forall a, b :: 0 <= a < b < |found| ==> found[a] != found[b]
          invariant forall j :: j in found <==>
                      0 <= j < |rows| && (rows[j].status in statuses[..s] || (j < i && rows[j].status == statuses[s]))
                        && j in keep && IsCandidate(rows[j], now)
        {
          var continuation := rows[i];
          if continuation.forSupervisor && continuation.status == statuses[s] {
            if continuation.approval != Human && !IsExpired(continuation, now) && i in keep {
              found := found + [i];
            }
          }
        }
        assert statuses[..s + 1] == statuses[..s] + [statuses[s]];
      }
      assert statuses[..|statuses|] == statuses && Proposed in statuses && Deferred in statuses;
      candidates := SortByPolicy(rows, found);
      forall i: nat ensures i in candidates <==> i in Candidates(rows, keep, now, |rows|) { }
      OrderedListsAgree(rows, candidates, Candidates(rows, keep, now, |rows|));
    }

    /** One pass: an attempt that throws is caught and its continuation skipped. */
    method RunPolicy(q: PolicyRequest, keep: set<Id>, key: PolicyKey, newItems: seq<Id>, now: Time)
      returns (result: PolicyResult)
      requires Valid() && Admissible(Contents(), OnPolicy(q, keep, key, newItems, now))
      modifies this, runner
      ensures Valid()
      ensures (Contents(), result) == ContinuationModel.RunPolicy(old(Contents()), q, keep, key, newItems, now)
      ensures |result.dispatched| <= q.limit
    {
      hide Inv, Candidates, PassOk, PolicyOne, Admissible, NewIds, DispatchStands, RowsLater;
      hide DifferentDispatches, SkippedUntouched, MoreUrgent, InPolicyOrder;
      ghost var t := Contents();
      PolicyTerms(t, q, keep, key, newItems, now);
      PolicyDispatchesWithinLimit(t, q, keep, key, newItems, now);
      var candidates := ReadCandidates(keep, now);
      var ids := TakeFirst(candidates, q.limit);
      CandidatesDistinct(rows, candidates);
      var read := rows;
      ClockKeepsInv(t, now);
      runner.clock := now;
      result := PolicyResult([], []);
      for n := 0 to |ids|
        invariant Valid() && runner.clock == now
        invariant (Contents(), result) == PolicyPass(t, ids[..n], q, key, newItems, now)
      {
        assert ids[..n + 1][..n] == ids[..n];
        PassKeeps(t, ids[..n], q, key, newItems, now);
        NextIdIsNew(t, newItems, n);
        PassFacts(t, ids[..n], Contents(), result, newItems[..n], newItems[n], now);
        result := Consider(ids[n], read[ids[n]], result, q, key, newItems[n], now);
      }
      assert ids[..|ids|] == ids;
    }

    method Consider(id: nat, continuation: Continuation, result: PolicyResult, q: PolicyRequest, key: PolicyKey,
            newItem: Id, now: Time)
      returns (extended: PolicyResult)
      requires Valid() && runner.clock == now && 0 < now && newItem !in runner.items
      requires LeaseTerms(q.leaseSeconds, q.maxAttempts, q.backoff)
      modifies this, runner
      ensures Valid() && runner.clock == now
      ensures (Contents(), extended) == PolicyOne(old(Contents()), result, id, continuation, q, key, newItem, now)
    {
      hide Inv, Queue;
      QueueTakesTime(Contents(), PolicyQueue(continuation, id, q), Some(key(id, continuation.generation)), newItem,
        now);
      if continuation.action.RequestDecision? {
        return result.(skipped := result.skipped + [id]);
      }
      var outcome := QueueOne(PolicyQueue(continuation, id, q), Some(key(id, continuation.generation)), newItem, now);
      if outcome.QueueRefused? {
        return result.(skipped := result.skipped + [id]);
      }
      return result.(dispatched := result.dispatched + [outcome.result]);
    }
  }

  lemma SameQueueable(t: State, q: QueueRequest, now: Time)
    ensures Queueable(t, q, now) == Queueable(WithClock(t, now), q, now)
  {
  }

  lemma QueueableTarget(t: State, q: QueueRequest, now: Time)
    requires Queueable(t, q, now)
    ensures var c := t.rows[q.id];
            !c.action.CreateItem? ==>
              c.action.item in t.runner.items && ItemAccepts(t.runner.items[c.action.item], q.supervisor, now)
  {
  }

  lemma RunnerIsSound(t: State, now: Time)
    requires Inv(t) && t.runner.clock <= now
    ensures R.Inv(t.runner) && R.Inv(t.runner.(clock := now))
  {
    R.LaterKeepsInv(t.runner, now);
  }

  /** The clock a dispatch starts from does not matter. */
  lemma SameDispatch(runner: R.State, now: Time, request: R.DispatchRequest)
    requires request.now == now
    ensures R.Dispatch(runner.(clock := now), request) == R.Dispatch(runner, request)
  {
  }

  lemma PolicyTerms(t: State, q: PolicyRequest, keep: set<Id>, key: PolicyKey, newItems: seq<Id>, now: Time)
    requires Admissible(t, OnPolicy(q, keep, key, newItems, now))
    ensures LeaseTerms(q.leaseSeconds, q.maxAttempts, q.backoff) && |newItems| == q.limit && NewIds(t, newItems)
    ensures t.runner.clock <= now && 0 < now
  {
  }

  lemma NextIdIsNew(t: State, newItems: seq<Id>, n: nat)
    requires NewIds(t, newItems) && n < |newItems|
    ensures newItems[n] !in t.runner.items && newItems[n] !in newItems[..n]
  {
  }

  lemma PassFacts(t: State, ids: seq<nat>, t': State, result: PolicyResult, newItems: seq<Id>, newItem: Id, now: Time)
    requires PassOk(t, ids, t', result, newItems, now) && newItem !in t.runner.items && newItem !in newItems
    ensures Inv(t') && newItem !in t'.runner.items
  {
    hide Inv;
  }

  lemma QueueTakesTime(t: State, q: QueueRequest, key: Option<Id>, newItem: Id, now: Time)
    ensures Queue(t, q, key, newItem, now).0.runner.clock == now
    ensures Queue(t, q, key, newItem, now).1.QueueRefused? && t.runner.clock == now ==>
              Queue(t, q, key, newItem, now).0 == t
  {
  }
}
