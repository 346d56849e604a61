/** What commands, edits and supervisors get done on continuations, said of the columns of continuations,
    items and runs alone. */
module ContinuationOutcomes {
  import opened Base
  import opened ContinuationModel
  import Tables = RunnerTables
  import R = RunnerModel
  import O = RunnerOutcomes

  // ---------------------------------------------------------------- commands, edits and expiry

  /** Where each command may start, and where it leads. */
  const MOVES: set<(Status, Command, Status)> := {
    (Proposed, Approve, Approved), (Deferred, Approve, Approved),
    (Proposed, Reject, Rejected), (Deferred, Reject, Rejected),
    (Proposed, Defer, Deferred),
    (Approved, Consume, Consumed),
    (Proposed, Cancel, Cancelled), (Deferred, Cancel, Cancelled), (Approved, Cancel, Cancelled),
    (Proposed, Supersede, Superseded), (Deferred, Supersede, Superseded), (Approved, Supersede, Superseded)
  }

  predicate Ended(c: Continuation, now: Time) { c.expiresAt.Some? && c.expiresAt.value <= now }

  /** A client's result shows what the action was to bring about. */
  predicate Shows(r: Consumption, action: Action) {
    && r.References?
    && match action
       case CreateItem(_) => r.item.Some?
       case ResumeItem(item) => r.item == Some(item) || (r.item == None && (r.run.Some? || r.conversation.Some?))
       case DispatchItem(_, _) => r.run.Some?
       case RequestDecision(_) => r.decision.Some? || r.item.Some?
  }

  predicate NewKey(t: State, key: Option<Id>) { key.Some? ==> key.value !in t.commands }

  /** The tables once an accepted command or edit has made c' of a continuation. */
  function After(t: State, q: Request, key: Option<Id>, now: Time, c': Continuation): State
    requires q.id < |t.rows|
  {
    t.(rows := t.rows[q.id := c'], runner := t.runner.(clock := now),
       commands := if key.Some? then t.commands[key.value := Stored(q, c')] else t.commands)
  }

  /** A command is accepted exactly where the table lets it start, at the generation the continuation has,
      before it ends, and with a result exactly if it consumes, one that shows what was to be done. */
  lemma ResolveExactly(t: State, q: Request, key: Option<Id>, now: Time)
    requires q.Resolve? && NewKey(t, key)
    ensures Perform(t, q, key, now).1.Accepted? <==>
              && q.id < |t.rows|
              && var c := t.rows[q.id];
              && (exists to :: (c.status, q.command, to) in MOVES)
              && c.generation == q.expectedGeneration && !Ended(c, now)
              && (if q.command == Consume then q.result.Some? && Shows(q.result.value, c.action) else q.result == None)
    ensures !Perform(t, q, key, now).1.Accepted? ==>
              Perform(t, q, key, now) == (t.(runner := t.runner.(clock := now)), Refused)
  {
    if q.id < |t.rows| {
      var c := t.rows[q.id];
      MovesAreTransitions(c.status, q.command);
      if q.result.Some? { ShowsIsFits(q.result.value, c.action); }
    }
  }

  lemma MovesAreTransitions(s: Status, command: Command)
    ensures forall to :: (s, command, to) in MOVES <==> Transition(command, s) == Some(to)
    ensures Transition(command, s).Some? <==> exists to :: (s, command, to) in MOVES
    ensures Transition(command, s).Some? ==> LiveStatus(s)
  {
    if Transition(command, s).Some? { assert (s, command, Transition(command, s).value) in MOVES; }
  }

  lemma ShowsIsFits(r: Consumption, action: Action)
    ensures Shows(r, action) <==> FitsAction(r, action)
  {
  }

  /** What an accepted command leaves: the status it leads to, one generation on, with the result sent. */
  lemma ResolveEffect(t: State, q: Request, key: Option<Id>, now: Time, to: Status)
    requires q.Resolve? && NewKey(t, key) && Perform(t, q, key, now).1.Accepted?
    requires q.id < |t.rows| && (t.rows[q.id].status, q.command, to) in MOVES
    ensures var c := t.rows[q.id];
            var c' := c.(status := to, generation := c.generation + 1, result := q.result);
            Perform(t, q, key, now) == (After(t, q, key, now, c'), Accepted(c'))
  {
    hide FitsAction;
    MovesAreTransitions(t.rows[q.id].status, q.command);
  }

  /** An edit is accepted exactly on a proposed or deferred continuation, at the generation it has and before
      it ends; it replaces the instruction, one generation on. */
  lemma EditExactly(t: State, q: Request, key: Option<Id>, now: Time)
    requires q.Edit? && NewKey(t, key)
    ensures if && q.id < |t.rows| && t.rows[q.id].status in {Proposed, Deferred}
               && t.rows[q.id].generation == q.expectedGeneration && !Ended(t.rows[q.id], now)
            then
              var c' := t.rows[q.id].(instruction := q.instruction, generation := t.rows[q.id].generation + 1);
              Perform(t, q, key, now) == (After(t, q, key, now, c'), Accepted(c'))
            else Perform(t, q, key, now) == (t.(runner := t.runner.(clock := now)), Refused)
  {
  }

  /** A key that was used answers for the same request with its result, and for no other. */
  lemma CommandRepeats(t: State, q: Request, key: Id, now: Time)
    requires key in t.commands
    ensures Perform(t, q, Some(key), now) ==
              (t.(runner := t.runner.(clock := now)),
               if t.commands[key].request == q then Replayed(t.commands[key].result) else Refused)
  {
  }

  /** A proposal is recorded exactly for a source item that exists. */
  lemma ProposeExactly(t: State, c: Continuation, now: Time)
    requires c.status == Proposed && c.generation == 1 && c.result == None && c.createdAt == now
    ensures Propose(t, c, now) ==
              t.(runner := t.runner.(clock := now),
                 rows := if c.source in t.runner.items then t.rows + [c] else t.rows)
  {
  }

  /** A read marks exactly a continuation that waits and whose time is over. */
  lemma ExpireExactly(t: State, id: nat, now: Time)
    requires id < |t.rows|
    ensures var c := t.rows[id];
            Expire(t, id, now) ==
              t.(runner := t.runner.(clock := now),
                 rows := if c.status in {Proposed, Deferred, Approved} && Ended(c, now)
                         then t.rows[id := c.(status := ExpiredStatus, generation := c.generation + 1)] else t.rows)
  {
  }

  // ---------------------------------------------------------------- the supervisor

  /** The item can be given to the supervisor: it is ready, and nobody else holds it. */
  predicate Takes(items: map<Id, R.Item>, id: Id, supervisor: Id, now: Time) {
    && id in items && items[id].status == R.Ready
    && (|| items[id].holder == None || items[id].holder == Some(supervisor)
        || items[id].expires == None || items[id].expires.value <= now)
  }

  /** The action can be carried out on the items as they are. */
  predicate Feasible(items: map<Id, R.Item>, c: Continuation, supervisor: Id, now: Time) {
    && c.source in items
    && match c.action
       case CreateItem(_) => true
       case ResumeItem(item) => Takes(items, item, supervisor, now)
       case DispatchItem(item, _) => Takes(items, item, supervisor, now)
       case RequestDecision(_) => false
  }

  /** The continuation waits, and may be queued under this approval mode. */
  predicate Permits(c: Continuation, generation: int, mode: ApprovalMode, now: Time) {
    && c.status in {Proposed, Deferred, Approved} && c.generation == generation && !Ended(c, now)
    && match mode
       case Human => true
       case Automatic => c.forSupervisor && c.approval == Automatic
       case Notify => c.forSupervisor && c.approval == Notify
  }

  /** A supervisor queues a run exactly for a continuation that permits it, with an action that can be carried
      out; else nothing changes. */
  lemma QueueExactly(t: State, q: QueueRequest, key: Option<Id>, newItem: Id, now: Time)
    requires key.Some? ==> key.value !in t.queued
    ensures Queue(t, q, key, newItem, now).1.Dispatched? <==>
              && q.id < |t.rows| && Permits(t.rows[q.id], q.expectedGeneration, q.mode, now)
              && Feasible(t.runner.items, t.rows[q.id], q.supervisor, now)
    ensures !Queue(t, q, key, newItem, now).1.Dispatched? ==>
              Queue(t, q, key, newItem, now) == (t.(runner := t.runner.(clock := now)), QueueRefused)
  {
    hide R.Dispatch;
  }

  /** A key that was used answers for the same request with its result, and for no other. */
  lemma QueueRepeats(t: State, q: QueueRequest, key: Id, newItem: Id, now: Time)
    requires key in t.queued
    ensures Queue(t, q, Some(key), newItem, now) ==
              (t.(runner := t.runner.(clock := now)),
               if t.queued[key].request == q then QueueReplayed(t.queued[key].result) else QueueRefused)
  {
  }

  /** The item a continuation's run is for: the one of its action, or the new one. */
  function Target(c: Continuation, newItem: Id): Id {
    match c.action
    case ResumeItem(item) => item
    case DispatchItem(item, _) => item
    case _ => newItem
  }

  /** What queueing leaves: the continuation consumed by the run, one generation on if it was approved and
      two if it had to be; the run as the last one, for the supervisor; the item held by it. */
  lemma QueueEffect(t: State, q: QueueRequest, key: Option<Id>, newItem: Id, now: Time)
    requires Inv(t) && Admissible(t, OnQueue(q, key, newItem, now)) && (key.Some? ==> key.value !in t.queued)
    requires Queue(t, q, key, newItem, now).1.Dispatched?
    ensures q.id < |t.rows|
    ensures var (t', outcome) := Queue(t, q, key, newItem, now);
            var c := t.rows[q.id];
            var target, expires := Target(c, newItem), Some(now + 1000 * q.leaseSeconds);
            var profile :=
              if c.action.DispatchItem? && c.action.profile.Some? && c.action.profile.value != q.profile.id
              then Tables.Profile(c.action.profile.value, None) else q.profile;
            var result := QueueResult(q.id, target, |t.runner.runs|);
            && (c.action.CreateItem? || target in t.runner.items)
            && var item :=
                 if c.action.CreateItem? then R.Item(c.action.project, R.Ready, None, None, 0)
                 else t.runner.items[target];
            && outcome == Dispatched(result)
            && t'.rows == t.rows[q.id := c.(status := Consumed,
                                            generation := c.generation + (if c.status == Approved then 1 else 2),
                                            result := Some(QueuedFor(target, |t.runner.runs|)))]
            && t'.runner.runs ==
                 t.runner.runs + [Tables.QueuedRun(item.project, target, q.supervisor, q.runnerType, profile,
                                                   Some(q.id), Some(q.id), Tables.Record(1, 1), Tables.Queued, 1, 1,
                                                   Some(q.supervisor), expires, 0, q.maxAttempts, q.backoff, None, now)]
            && t'.runner.items ==
                 t.runner.items[target := R.Item(item.project, R.Active, Some(q.supervisor), expires,
                                                 item.claimGeneration + 1)]
            && t'.runner.clock == now && t'.commands == t.commands
            && t'.queued == if key.Some? then t.queued[key.value := QueueStored(q, result)] else t.queued
  {
    hide R.Inv, R.Dispatch;
    assert [newItem][0] == newItem;
    QueueDispatches(t, q, newItem, now);
    var c := t.rows[q.id];
    var target, runner := TargetOf(c.action, newItem), WithTarget(t.runner, c.action, newItem);
    O.DispatchExactly(runner, DispatchFor(c, q, target, runner.items[target].claimGeneration, now));
  }

  // ---------------------------------------------------------------- the policy

  /** A policy may take the continuation up by itself. */
  predicate Considerable(c: Continuation, now: Time) {
    && c.forSupervisor && c.status in {Proposed, Deferred} && c.approval in {Automatic, Notify} && !Ended(c, now)
  }

  /** Row i ends sooner than row j, or, if they end together or never, is older. */
  predicate Sooner(s: seq<Continuation>, i: nat, j: nat)
    requires i < |s| && j < |s|
  {
    || (s[i].expiresAt.Some? && (s[j].expiresAt.None? || s[i].expiresAt.value < s[j].expiresAt.value))
    || (s[i].expiresAt == s[j].expiresAt
        && (s[i].createdAt < s[j].createdAt || (s[i].createdAt == s[j].createdAt && i < j)))
  }

  /** The rows a pass takes up: in order of urgency, all there are to consider or the first of them. */
  ghost predicate Shortlist(s: seq<Continuation>, keep: set<Id>, now: Time, limit: nat, ids: seq<nat>) {
    && |ids| <= limit
    && (forall a :: 0 <= a < |ids| ==> ids[a] < |s| && ids[a] in keep && Considerable(s[ids[a]], now))
    && (forall a, b :: 0 <= a < b < |ids| ==> Sooner(s, ids[a], ids[b]))
    && (forall i :: 0 <= i < |s| && i in keep && Considerable(s[i], now) && i !in ids ==>
          |ids| == limit && forall a :: 0 <= a < |ids| ==> Sooner(s, ids[a], i))
  }

  lemma ShortlistFound(s: seq<Continuation>, keep: set<Id>, now: Time, limit: nat)
    ensures Shortlist(s, keep, now, limit, TakeFirst(Candidates(s, keep, now, |s|), limit))
  {
    hide Candidates, Considerable, IsCandidate, Sooner, PolicyBefore;
    var all := Candidates(s, keep, now, |s|);
    var ids := TakeFirst(all, limit);
    forall i | 0 <= i < |s| ensures Considerable(s[i], now) <==> IsCandidate(s[i], now) {
      ConsiderableIsCandidate(s[i], now);
    }
    forall a | 0 <= a < |ids| ensures ids[a] == all[a] && all[a] in all {}
    forall a, b | 0 <= a < b < |all| ensures Sooner(s, all[a], all[b]) { SoonerIsBefore(s, all[a], all[b]); }
    forall i | 0 <= i < |s| && i in keep && Considerable(s[i], now) && i !in ids
      ensures |ids| == limit && forall a :: 0 <= a < |ids| ==> Sooner(s, ids[a], i)
    {
      assert i in all;
      var b :| 0 <= b < |all| && all[b] == i;
      assert b >= |ids|;
    }
  }

  lemma ConsiderableIsCandidate(c: Continuation, now: Time)
    ensures Considerable(c, now) <==> IsCandidate(c, now)
  {
  }

  lemma SoonerIsBefore(s: seq<Continuation>, i: nat, j: nat)
    requires i < |s| && j < |s|
    ensures Sooner(s, i, j) <==> PolicyBefore(s, i, j)
  {
  }

  function ItemOf(c: Continuation): Option<Id> {
    match c.action
    case ResumeItem(item) => Some(item)
    case DispatchItem(item, _) => Some(item)
    case _ => None
  }

  /** The key under which the policy queues a run for row i. */
  function KeyOf(s: seq<Continuation>, key: PolicyKey, i: nat): Id
    requires i < |s|
  {
    key(i, s[i].generation)
  }

  function Dispatches(result: PolicyResult): set<nat> {
    set a | 0 <= a < |result.dispatched| :: result.dispatched[a].id
  }

  /** Rows i and j are for one item, or would be dispatched under one key. */
  predicate Rivals(s: seq<Continuation>, key: PolicyKey, i: nat, j: nat)
    requires i < |s| && j < |s|
  {
    (ItemOf(s[i]).Some? && ItemOf(s[i]) == ItemOf(s[j])) || KeyOf(s, key, i) == KeyOf(s, key, j)
  }

  ghost predicate AreRows(s: seq<Continuation>, done: set<nat>) { forall i :: i in done ==> i < |s| }

  /** Row i can be served, and none of those already served is its rival. */
  ghost predicate Served(t: State, done: set<nat>, q: PolicyRequest, key: PolicyKey, now: Time, i: nat)
    requires i < |t.rows| && AreRows(t.rows, done)
  {
    && Feasible(t.runner.items, t.rows[i], q.supervisor, now) && KeyOf(t.rows, key, i) !in t.queued
    && forall j :: j in done ==> !Rivals(t.rows, key, j, i)
  }

  /** What a pass that served these rows used up: their items and their keys. */
  ghost predicate UsedUp(t: State, done: set<nat>, t': State, key: PolicyKey)
    requires AreRows(t.rows, done)
  {
    && (forall id :: id in t.runner.items ==>
          && id in t'.runner.items
          && (t'.runner.items[id] == t.runner.items[id] || exists i :: i in done && ItemOf(t.rows[i]) == Some(id)))
    && (forall i :: i in done && ItemOf(t.rows[i]).Some? ==>
          var id := ItemOf(t.rows[i]).value; id in t'.runner.items && t'.runner.items[id].status == R.Active)
    && (forall k :: k in t'.queued <==> k in t.queued || exists i :: i in done && k == KeyOf(t.rows, key, i))
  }

  /** The IDs of items to be created are named by no continuation yet. */
  ghost predicate Unnamed(s: seq<Continuation>, newItems: seq<Id>) {
    forall a, i :: 0 <= a < |newItems| && 0 <= i < |s| ==>
      s[i].source != newItems[a] && ItemOf(s[i]) != Some(newItems[a])
  }

  ghost predicate OnlyAdds(items: map<Id, R.Item>, items': map<Id, R.Item>, newItems: seq<Id>) {
    forall id :: id in items' ==> id in items || id in newItems
  }

  /** What was used up decides whether the next row can be served now. */
  lemma FeasibleNow(t: State, done: set<nat>, before: State, q: PolicyRequest, key: PolicyKey, newItems: seq<Id>,
          now: Time, i: nat)
    requires i < |t.rows| && AreRows(t.rows, done) && UsedUp(t, done, before, key)
    requires OnlyAdds(t.runner.items, before.runner.items, newItems) && Unnamed(t.rows, newItems)
    ensures Feasible(before.runner.items, t.rows[i], q.supervisor, now) && KeyOf(t.rows, key, i) !in before.queued <==>
              Served(t, done, q, key, now, i)
  {
    hide KeyOf;
  }

  lemma UsedUpMore(t: State, done: set<nat>, before: State, after: State, key: PolicyKey, i: nat, newItem: Id)
    requires i < |t.rows| && AreRows(t.rows, done) && UsedUp(t, done, before, key)
    requires Target(t.rows[i], newItem) in after.runner.items && newItem !in t.runner.items
    requires after.runner.items[Target(t.rows[i], newItem)].status == R.Active
    requires forall id :: id in before.runner.items && id != Target(t.rows[i], newItem) ==>
               id in after.runner.items && after.runner.items[id] == before.runner.items[id]
    requires forall k :: k in after.queued <==> k in before.queued || k == KeyOf(t.rows, key, i)
    ensures UsedUp(t, done + {i}, after, key)
  {
    hide KeyOf;
    forall id | id in t.runner.items
      ensures id in after.runner.items
      ensures after.runner.items[id] == t.runner.items[id]
              || exists j :: j in done + {i} && ItemOf(t.rows[j]) == Some(id)
    {
      if id == Target(t.rows[i], newItem) {
        assert ItemOf(t.rows[i]) == Some(id);
      } else if after.runner.items[id] != t.runner.items[id] {
        var j :| j in done && ItemOf(t.rows[j]) == Some(id);
        assert j in done + {i};
      }
    }
    forall k ensures k in after.queued <==> k in t.queued || exists j :: j in done + {i} && k == KeyOf(t.rows, key, j) {
      if k == KeyOf(t.rows, key, i) {
        assert i in done + {i};
      } else if j :| j in done && k == KeyOf(t.rows, key, j) {
        assert j in done + {i};
      }
    }
  }

  /** The supervisor serves one more row exactly if it can be served then, and uses up its item and key. */
  lemma QueueServes(before: State, q: PolicyRequest, c: Continuation, id: nat, key: Id, newItem: Id, now: Time)
    requires Inv(before) && Admissible(before, OnQueue(PolicyQueue(c, id, q), Some(key), newItem, now))
    requires id < |before.rows| && before.rows[id] == c && Considerable(c, now)
    ensures var (after, outcome) := Queue(before, PolicyQueue(c, id, q), Some(key), newItem, now);
            && (!outcome.QueueRefused? <==>
                  Feasible(before.runner.items, c, q.supervisor, now) && key !in before.queued)
            && (!outcome.QueueRefused? ==>
                  && outcome.result.id == id
                  && (forall k :: k in after.queued <==> k in before.queued || k == key)
                  && Target(c, newItem) in after.runner.items
                  && after.runner.items[Target(c, newItem)].status == R.Active
                  && forall i :: i in before.runner.items && i != Target(c, newItem) ==>
                       i in after.runner.items && after.runner.items[i] == before.runner.items[i])
  {
    hide Inv, Queue, Feasible;
    var request := PolicyQueue(c, id, q);
    PolicyNeverReplays(before, request, Some(key), newItem, now);
    if key in before.queued {
      QueueRepeats(before, request, key, newItem, now);
    } else {
      QueueExactly(before, request, Some(key), newItem, now);
      if Queue(before, request, Some(key), newItem, now).1.Dispatched? {
        QueueEffect(before, request, Some(key), newItem, now);
      }
    }
  }

  lemma OneMoreServed(t: State, ids: seq<nat>, before: State, result: PolicyResult, q: PolicyRequest, key: PolicyKey,
          newItems: seq<Id>, newItem: Id, now: Time, id: nat)
    requires PassOk(t, ids, before, result, newItems, now) && 0 < now
             && LeaseTerms(q.leaseSeconds, q.maxAttempts, q.backoff)
    requires id < |t.rows| && id !in ids && newItem !in t.runner.items && newItem !in newItems
    requires AreRows(t.rows, Dispatches(result)) && UsedUp(t, Dispatches(result), before, key)
    requires Considerable(t.rows[id], now) && Unnamed(t.rows, newItems)
    ensures var (after, result') := PolicyOne(before, result, id, t.rows[id], q, key, newItem, now);
            var done := Dispatches(result);
            && Dispatches(result') == (if Served(t, done, q, key, now, id) then done + {id} else done)
            && result'.skipped == (if Served(t, done, q, key, now, id) then result.skipped else result.skipped + [id])
            && UsedUp(t, Dispatches(result'), after, key)
  {
    hide Inv, DispatchStands, RowsLater, Queue, UsedUp, Served, Feasible;
    var c, done := t.rows[id], Dispatches(result);
    var (after, result') := PolicyOne(before, result, id, c, q, key, newItem, now);
    FeasibleNow(t, done, before, q, key, newItems, now, id);
    if c.action.RequestDecision? {
      NotForThePolicy(before.runner.items, c, q.supervisor, now);
    } else {
      QueueServes(before, q, c, id, KeyOf(t.rows, key, id), newItem, now);
      if result' != result.(skipped := result'.skipped) {
        OneMoreDispatched(result, result');
        UsedUpMore(t, done, before, after, key, id, newItem);
      } else {
        assert Dispatches(result') == done;
      }
    }
  }

  lemma NotForThePolicy(items: map<Id, R.Item>, c: Continuation, supervisor: Id, now: Time)
    requires c.action.RequestDecision?
    ensures !Feasible(items, c, supervisor, now)
  {
  }

  lemma OneMoreDispatched(result: PolicyResult, result': PolicyResult)
    requires |result'.dispatched| == |result.dispatched| + 1 && result.dispatched <= result'.dispatched
    ensures Dispatches(result') == Dispatches(result) + {result'.dispatched[|result.dispatched|].id}
  {
    forall i: nat ensures i in Dispatches(result') <==>
                     i in Dispatches(result) || i == result'.dispatched[|result.dispatched|].id
    {
      if i in Dispatches(result) {
        var a :| 0 <= a < |result.dispatched| && result.dispatched[a].id == i;
        assert result'.dispatched[a].id == i;
      }
    }
  }

  /** The rows served are exactly those that can be and have no rival served before them. */
  ghost predicate Greedy(t: State, ids: seq<nat>, done: set<nat>, q: PolicyRequest, key: PolicyKey, now: Time) {
    && (forall a :: 0 <= a < |ids| ==> ids[a] < |t.rows|) && (forall i :: i in done ==> i in ids)
    && forall a :: 0 <= a < |ids| ==>
         (ids[a] in done <==>
            && Feasible(t.runner.items, t.rows[ids[a]], q.supervisor, now)
            && KeyOf(t.rows, key, ids[a]) !in t.queued
            && forall b :: 0 <= b < a && ids[b] in done ==> !Rivals(t.rows, key, ids[b], ids[a]))
  }

  lemma GreedyMore(t: State, ids: seq<nat>, done: set<nat>, q: PolicyRequest, key: PolicyKey, now: Time, id: nat)
    requires Greedy(t, ids, done, q, key, now) && id < |t.rows| && id !in ids
    ensures AreRows(t.rows, done)
    ensures Greedy(t, ids + [id], if Served(t, done, q, key, now, id) then done + {id} else done, q, key, now)
  {
    hide Feasible, Rivals, KeyOf;
    var done' := if Served(t, done, q, key, now, id) then done + {id} else done;
    var n, ids' := |ids|, ids + [id];
    assert forall a :: 0 <= a < n ==> ids'[a] == ids[a] && ids[a] in ids && (ids[a] in done' <==> ids[a] in done);
    assert (forall j :: j in done ==> !Rivals(t.rows, key, j, id)) <==>
           (forall b :: 0 <= b < n && ids[b] in done ==> !Rivals(t.rows, key, ids[b], id));
  }

  lemma GreedyWithin(t: State, ids: seq<nat>, done: set<nat>, q: PolicyRequest, key: PolicyKey, now: Time)
    requires Greedy(t, ids, done, q, key, now)
    ensures forall i :: i in done ==> i in ids
  {
  }

  /** A pass over these rows served greedily, and skipped the others. */
  ghost predicate PassServes(t: State, ids: seq<nat>, t': State, result: PolicyResult, q: PolicyRequest, key: PolicyKey,
          now: Time) {
    var done := Dispatches(result);
    && Greedy(t, ids, done, q, key, now) && AreRows(t.rows, done) && UsedUp(t, done, t', key)
    && forall i :: i in result.skipped <==> i in ids && i !in done
  }

  lemma PassServesMore(t: State, ids: seq<nat>, before: State, result: PolicyResult, q: PolicyRequest, key: PolicyKey,
          newItems: seq<Id>, newItem: Id, now: Time, id: nat)
    requires PassOk(t, ids, before, result, newItems, now) && 0 < now
             && LeaseTerms(q.leaseSeconds, q.maxAttempts, q.backoff)
    requires id < |t.rows| && id !in ids && newItem !in t.runner.items && newItem !in newItems
    requires PassServes(t, ids, before, result, q, key, now)
    requires Considerable(t.rows[id], now) && Unnamed(t.rows, newItems)
    ensures var (after, result') := PolicyOne(before, result, id, t.rows[id], q, key, newItem, now);
            PassServes(t, ids + [id], after, result', q, key, now)
  {
    hide Inv, PolicyOne, PassOk, UsedUp, Greedy, Served, Considerable, Dispatches;
    OneMoreServed(t, ids, before, result, q, key, newItems, newItem, now, id);
    GreedyMore(t, ids, Dispatches(result), q, key, now, id);
    GreedyWithin(t, ids, Dispatches(result), q, key, now);
  }

  lemma {:induction false} PassIsGreedy(t: State, ids: seq<nat>, q: PolicyRequest, key: PolicyKey, newItems: seq<Id>,
          now: Time)
    requires Inv(t) && t.runner.clock <= now && 0 < now && LeaseTerms(q.leaseSeconds, q.maxAttempts, q.backoff)
    requires RowsOf(t.rows, ids) && |newItems| >= |ids| && NewIds(t, newItems) && Unnamed(t.rows, newItems)
    requires forall a, b :: 0 <= a < b < |ids| ==> ids[a] != ids[b]
    requires forall a :: 0 <= a < |ids| ==> Considerable(t.rows[ids[a]], now)
    ensures var (t', result) := PolicyPass(t, ids, q, key, newItems, now);
            PassServes(t, ids, t', result, q, key, now)
    decreases |ids|
  {
    hide Inv, PolicyOne, PassOk, PassServes, Considerable;
    if ids == [] {
      NothingServed(t, q, key, now);
    } else {
      var n := |ids| - 1;
      var (before, result) := PolicyPass(t, ids[..n], q, key, newItems, now);
      PassIsGreedy(t, ids[..n], q, key, newItems, now);
      PassKeeps(t, ids[..n], q, key, newItems, now);
      PassServesMore(t, ids[..n], before, result, q, key, newItems[..n], newItems[n], now, ids[n]);
      assert ids[..n] + [ids[n]] == ids;
    }
  }

  lemma NothingServed(t: State, q: PolicyRequest, key: PolicyKey, now: Time)
    ensures PassServes(t, [], WithClock(t, now), PolicyResult([], []), q, key, now)
  {
    assert Dispatches(PolicyResult([], [])) == {};
  }

  /** A policy pass is greedy: of its shortlist it serves, in order of urgency, every continuation that can be
      served and has no rival served before it, and it skips exactly the others. */
  lemma PolicyIsGreedy(t: State, q: PolicyRequest, keep: set<Id>, key: PolicyKey, newItems: seq<Id>, now: Time)
    returns (ids: seq<nat>)
    requires Inv(t) && Admissible(t, OnPolicy(q, keep, key, newItems, now)) && Unnamed(t.rows, newItems)
    ensures Shortlist(t.rows, keep, now, q.limit, ids)
    ensures Greedy(t, ids, Dispatches(RunPolicy(t, q, keep, key, newItems, now).1), q, key, now)
    ensures forall i :: i in RunPolicy(t, q, keep, key, newItems, now).1.skipped <==>
              i in ids && i !in Dispatches(RunPolicy(t, q, keep, key, newItems, now).1)
  {
    hide Inv, Considerable, Greedy, UsedUp, PassOk, PolicyPass;
    ids := TakeFirst(Candidates(t.rows, keep, now, |t.rows|), q.limit);
    ShortlistFound(t.rows, keep, now, q.limit);
    CandidatesDistinct(t.rows, Candidates(t.rows, keep, now, |t.rows|));
    PassIsGreedy(t, ids, q, key, newItems, now);
  }
}
