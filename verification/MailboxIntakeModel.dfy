/** Mailbox intake: bindings with a revision and a provider cursor, the observations stored for them,
    and one row for each reconciliation that was committed.

    JSON texts are their decoded records; the request fingerprint is an uninterpreted function. */
module MailboxIntakeModel {
  import opened Base

  const MAX_BATCH := 256

  datatype Provider = Gmail | OtherProvider(name: Id)

  /** cursor: for Gmail a number, for other providers an opaque text. */
  datatype Subscription = Subscription(
    binding: Id, provider: Provider, scopeKind: Id, scopeId: Id, cursorKind: Id, cursor: nat, body: Id)

  datatype Observation = Observation(id: Id, binding: Id, provider: Provider, cursor: nat, body: Id)

  datatype Binding = Binding(state: Subscription, revision: nat)

  datatype Request = Request(
    binding: Id, reconciliation: Id, expectedRevision: int, expectedCursor: nat, next: Subscription,
    observations: seq<Observation>)

  datatype Reconciliation = Reconciliation(
    binding: Id, id: Id, fingerprint: Id, previousRevision: nat, nextRevision: nat, inserted: nat)

  datatype State = State(
    bindings: map<Id, Binding>, observations: map<Id, Observation>, reconciliations: seq<Reconciliation>)

  const EMPTY := State(map[], map[], [])

  type Fingerprint = Request -> Id

  datatype InitializeOutcome = Initialized | AlreadyInitialized(revision: nat) | InitializeConflict

  datatype CommitOutcome =
    | Committed(revision: nat, inserted: nat)
    | Duplicate(revision: nat, inserted: nat)
    | CommitRefused

  // ---------------------------------------------------------------- reads and checks

  /** The row of a reconciliation, or -1. */
  function Find(s: seq<Reconciliation>, binding: Id, id: Id): (r: int)
    ensures -1 <= r < |s|
    ensures r >= 0 ==> s[r].binding == binding && s[r].id == id
    ensures r < 0 ==> forall j :: 0 <= j < |s| ==> !(s[j].binding == binding && s[j].id == id)
  {
    if s == [] then -1
    else if s[|s| - 1].binding == binding && s[|s| - 1].id == id then |s| - 1
    else Find(s[..|s| - 1], binding, id)
  }

  predicate Continues(current: Subscription, next: Subscription) {
    && current.binding == next.binding && current.provider == next.provider
    && current.scopeKind == next.scopeKind && current.scopeId == next.scopeId && current.cursorKind == next.cursorKind
    && (current.provider == Gmail ==> current.cursor <= next.cursor)
  }

  predicate CursorFits(o: Observation, previous: nat, next: nat) {
    o.provider == Gmail ==> previous <= o.cursor <= next
  }

  predicate Belongs(o: Observation, binding: Id, provider: Provider) { o.binding == binding && o.provider == provider }

  /** No ID stands for two observations, within the batch or against the stored ones. */
  ghost predicate Consistent(stored: map<Id, Observation>, batch: seq<Observation>) {
    && (forall i, j :: 0 <= i < j < |batch| && batch[i].id == batch[j].id ==> batch[i] == batch[j])
    && (forall i :: 0 <= i < |batch| && batch[i].id in stored ==> stored[batch[i].id] == batch[i])
  }

  /** The stored observations together with a batch. */
  function Merged(stored: map<Id, Observation>, batch: seq<Observation>): map<Id, Observation> {
    if batch == [] then stored
    else Merged(stored, batch[..|batch| - 1])[batch[|batch| - 1].id := batch[|batch| - 1]]
  }

  predicate WellFormed(q: Request) {
    && 1 <= q.expectedRevision && |q.observations| <= MAX_BATCH && q.next.binding == q.binding
    && forall i :: 0 <= i < |q.observations| ==> Belongs(q.observations[i], q.binding, q.next.provider)
  }

  // ---------------------------------------------------------------- the mutations

  function Initialize(t: State, state: Subscription): (State, InitializeOutcome) {
    if state.binding in t.bindings
    then (t, if t.bindings[state.binding].state == state then AlreadyInitialized(t.bindings[state.binding].revision)
      else InitializeConflict)
    else (t.(bindings := t.bindings[state.binding := Binding(state, 1)]), Initialized)
  }

  ghost predicate Committable(t: State, q: Request) {
    && q.binding in t.bindings
    && t.bindings[q.binding].revision == q.expectedRevision
    && t.bindings[q.binding].state.cursor == q.expectedCursor
    && Continues(t.bindings[q.binding].state, q.next)
    && (forall i :: 0 <= i < |q.observations| ==>
      CursorFits(q.observations[i], t.bindings[q.binding].state.cursor, q.next.cursor))
    && Consistent(t.observations, q.observations)
  }

  /** Committing a reconciliation: the binding moves one revision on and exactly the new observations
      are stored. */
  ghost function Commit(t: State, q: Request, fingerprint: Fingerprint): (State, CommitOutcome) {
    if !WellFormed(q) then (t, CommitRefused)
    else
      var prior := Find(t.reconciliations, q.binding, q.reconciliation);
      if prior >= 0 then
        (t, if t.reconciliations[prior].fingerprint == fingerprint(q)
            then Duplicate(t.reconciliations[prior].nextRevision, t.reconciliations[prior].inserted) else CommitRefused)
      else if !Committable(t, q) then (t, CommitRefused)
      else
        MergedGrows(t.observations, q.observations);
        var revision := t.bindings[q.binding].revision;
        var observations := Merged(t.observations, q.observations);
        var inserted := |observations| - |t.observations|;
        var row := Reconciliation(q.binding, q.reconciliation, fingerprint(q), revision, revision + 1, inserted);
        (State(t.bindings[q.binding := Binding(q.next, revision + 1)], observations, t.reconciliations + [row]),
         Committed(revision + 1, inserted))
  }

  datatype Event = OnInitialize(state: Subscription) | OnCommit(request: Request)

  ghost function Step(t: State, e: Event, fingerprint: Fingerprint): State {
    match e
    case OnInitialize(state) => Initialize(t, state).0
    case OnCommit(q) => Commit(t, q, fingerprint).0
  }

  ghost function Run(t: State, es: seq<Event>, fingerprint: Fingerprint): State
    decreases |es|
  {
    if es == [] then t else Run(Step(t, es[0], fingerprint), es[1..], fingerprint)
  }

  // ---------------------------------------------------------------- what holds between mutations

  /** How many reconciliations a binding has had, and how many observations they brought. */
  function Count(s: seq<Reconciliation>, binding: Id): nat {
    if s == [] then 0 else Count(s[..|s| - 1], binding) + (if s[|s| - 1].binding == binding then 1 else 0)
  }

  function Inserted(s: seq<Reconciliation>, binding: Id): nat {
    if s == [] then 0
    else Inserted(s[..|s| - 1], binding) + (if s[|s| - 1].binding == binding then s[|s| - 1].inserted else 0)
  }

  function ObservationsOf(observations: map<Id, Observation>, binding: Id): set<Id> {
    set id | id in observations && observations[id].binding == binding
  }

  /** The reconciliations of a binding lead from revision 1 to 2, to 3, ... */
  ghost predicate Chained(s: seq<Reconciliation>) {
    forall i :: 0 <= i < |s| ==>
      s[i].previousRevision == 1 + Count(s[..i], s[i].binding) && s[i].nextRevision == s[i].previousRevision + 1
  }

  ghost predicate Distinct(s: seq<Reconciliation>) {
    forall i, j :: 0 <= i < j < |s| ==> s[i].binding != s[j].binding || s[i].id != s[j].id
  }

  /** A binding stands at the end of its chain. */
  ghost predicate BindingsCurrent(t: State) {
    && (forall b :: b in t.bindings ==>
      t.bindings[b].state.binding == b && t.bindings[b].revision == 1 + Count(t.reconciliations, b))
    && (forall i :: 0 <= i < |t.reconciliations| ==> t.reconciliations[i].binding in t.bindings)
  }

  /** Every stored observation belongs to a binding and is not ahead of its cursor. */
  ghost predicate ObservationsPlaced(t: State) {
    forall id :: id in t.observations ==>
      var o := t.observations[id];
      && o.id == id && o.binding in t.bindings && o.provider == t.bindings[o.binding].state.provider
      && (o.provider == Gmail ==> o.cursor <= t.bindings[o.binding].state.cursor)
  }

  /** Exactly the observations that the reconciliations of a binding report are stored for it. */
  ghost predicate Conserved(t: State) {
    forall b :: |ObservationsOf(t.observations, b)| == Inserted(t.reconciliations, b)
  }

  ghost predicate Inv(t: State) {
    Chained(t.reconciliations) && Distinct(t.reconciliations) && BindingsCurrent(t) && ObservationsPlaced(t)
      && Conserved(t)
  }

  // ---------------------------------------------------------------- merging a batch

  lemma {:induction false} MergedHas(stored: map<Id, Observation>, batch: seq<Observation>)
    requires Consistent(stored, batch)
    ensures forall id :: id in stored ==> id in Merged(stored, batch) && Merged(stored, batch)[id] == stored[id]
    ensures forall i :: 0 <= i < |batch| ==>
              batch[i].id in Merged(stored, batch) && Merged(stored, batch)[batch[i].id] == batch[i]
    ensures forall id :: id in Merged(stored, batch) && id !in stored ==>
              Merged(stored, batch)[id] in batch && Merged(stored, batch)[id].id == id
  {
    if batch != [] {
      var n := |batch| - 1;
      MergedHas(stored, batch[..n]);
      assert forall i :: 0 <= i < n ==> batch[..n][i] == batch[i];
      assert batch[n] in batch;
    }
  }

  lemma {:induction false} MergedGrows(stored: map<Id, Observation>, batch: seq<Observation>)
    ensures |stored| <= |Merged(stored, batch)|
    ensures stored.Keys <= Merged(stored, batch).Keys
  {
    if batch != [] {
      MergedGrows(stored, batch[..|batch| - 1]);
      var before, last := Merged(stored, batch[..|batch| - 1]), batch[|batch| - 1];
      assert before[last.id := last].Keys == before.Keys + {last.id};
    }
  }

  ghost predicate Extends(stored: map<Id, Observation>, merged: map<Id, Observation>, b: Id) {
    && (forall id :: id in stored ==> id in merged && merged[id] == stored[id])
    && (forall id :: id in merged && id !in stored ==> merged[id].binding == b)
  }

  lemma ExtendingCountsOwn(stored: map<Id, Observation>, merged: map<Id, Observation>, b: Id)
    requires Extends(stored, merged, b)
    ensures |ObservationsOf(merged, b)| == |ObservationsOf(stored, b)| + |merged| - |stored|
  {
    hide ObservationsOf;
    var added := merged.Keys - stored.Keys;
    KeysSplit(stored, merged);
    OwnSplit(stored, merged, b);
    assert |ObservationsOf(stored, b) + added| == |ObservationsOf(stored, b)| + |added|;
  }

  lemma KeysSplit(stored: map<Id, Observation>, merged: map<Id, Observation>)
    requires stored.Keys <= merged.Keys
    ensures |merged| == |stored| + |merged.Keys - stored.Keys|
  {
    assert merged.Keys == stored.Keys + (merged.Keys - stored.Keys);
  }

  lemma OwnSplit(stored: map<Id, Observation>, merged: map<Id, Observation>, b: Id)
    requires Extends(stored, merged, b)
    ensures ObservationsOf(merged, b) == ObservationsOf(stored, b) + (merged.Keys - stored.Keys)
    ensures ObservationsOf(stored, b) !! (merged.Keys - stored.Keys)
  {
  }

  lemma ExtendingSparesOthers(stored: map<Id, Observation>, merged: map<Id, Observation>, b: Id, other: Id)
    requires Extends(stored, merged, b) && other != b
    ensures ObservationsOf(merged, other) == ObservationsOf(stored, other)
  {
  }

  /** A batch of one binding adds to that binding exactly what it adds to the whole table. */
  lemma MergedCounts(stored: map<Id, Observation>, batch: seq<Observation>, b: Id, other: Id)
    requires Consistent(stored, batch) && forall i :: 0 <= i < |batch| ==> batch[i].binding == b
    ensures |ObservationsOf(Merged(stored, batch), other)|
            == |ObservationsOf(stored, other)| + (if other == b then |Merged(stored, batch)| - |stored| else 0)
  {
    hide Merged, ObservationsOf;
    MergedHas(stored, batch);
    if other == b {
      ExtendingCountsOwn(stored, Merged(stored, batch), b);
    } else {
      ExtendingSparesOthers(stored, Merged(stored, batch), b, other);
    }
  }

  // ---------------------------------------------------------------- each mutation keeps the invariant

  lemma AppendChained(s: seq<Reconciliation>, r: Reconciliation)
    requires Chained(s) && r.previousRevision == 1 + Count(s, r.binding) && r.nextRevision == r.previousRevision + 1
    ensures Chained(s + [r])
    ensures forall b :: Count(s + [r], b) == Count(s, b) + if b == r.binding then 1 else 0
    ensures forall b :: Inserted(s + [r], b) == Inserted(s, b) + if b == r.binding then r.inserted else 0
  {
    var s' := s + [r];
    assert s'[..|s|] == s;
    forall i | 0 <= i < |s'|
      ensures s'[i].previousRevision == 1 + Count(s'[..i], s'[i].binding)
              && s'[i].nextRevision == s'[i].previousRevision + 1
    {
      if i < |s| { assert s'[..i] == s[..i]; }
    }
  }

  lemma CommitKeepsPlaced(t: State, q: Request, fingerprint: Fingerprint)
    requires Inv(t) && Commit(t, q, fingerprint).1.Committed?
    ensures ObservationsPlaced(Commit(t, q, fingerprint).0)
  {
    hide Merged, Find, Chained, Distinct, Conserved, Count;
    MergedHas(t.observations, q.observations);
    var t' := Commit(t, q, fingerprint).0;
    forall id | id in t'.observations
      ensures var o := t'.observations[id];
              && o.id == id && o.binding in t'.bindings && o.provider == t'.bindings[o.binding].state.provider
              && (o.provider == Gmail ==> o.cursor <= t'.bindings[o.binding].state.cursor)
    {
      if id !in t.observations {
        var i :| 0 <= i < |q.observations| && q.observations[i] == t'.observations[id];
        assert Belongs(q.observations[i], q.binding, q.next.provider)
               && CursorFits(q.observations[i], t.bindings[q.binding].state.cursor, q.next.cursor);
      }
    }
  }

  lemma CommitKeepsInv(t: State, q: Request, fingerprint: Fingerprint)
    requires Inv(t)
    ensures Inv(Commit(t, q, fingerprint).0)
  {
    hide Merged, Find, Chained, Count, Inserted, ObservationsPlaced, ObservationsOf, Consistent, Continues;
    var (t', outcome) := Commit(t, q, fingerprint);
    if outcome.Committed? {
      CommitKeepsPlaced(t, q, fingerprint);
      var r := t'.reconciliations[|t.reconciliations|];
      assert t'.reconciliations == t.reconciliations + [r];
      AppendChained(t.reconciliations, r);
      forall b ensures |ObservationsOf(t'.observations, b)| == Inserted(t'.reconciliations, b) {
        assert forall i :: 0 <= i < |q.observations| ==> Belongs(q.observations[i], q.binding, q.next.provider);
        MergedCounts(t.observations, q.observations, q.binding, b);
      }
      ContinuesBinding(t.bindings[q.binding].state, q.next);
    }
  }

  lemma ContinuesBinding(current: Subscription, next: Subscription)
    requires Continues(current, next)
    ensures next.binding == current.binding
  {
  }

  lemma InitializeKeepsInv(t: State, state: Subscription)
    requires Inv(t)
    ensures Inv(Initialize(t, state).0)
  {
    if state.binding !in t.bindings { NothingBefore(t.reconciliations, state.binding); }
  }

  lemma {:induction false} NothingBefore(s: seq<Reconciliation>, b: Id)
    requires forall i :: 0 <= i < |s| ==> s[i].binding != b
    ensures Count(s, b) == 0
  {
    if s != [] { NothingBefore(s[..|s| - 1], b); }
  }

  lemma StepKeepsInv(t: State, e: Event, fingerprint: Fingerprint)
    requires Inv(t)
    ensures Inv(Step(t, e, fingerprint))
  {
    hide Inv, Commit;
    match e
    case OnInitialize(state) => InitializeKeepsInv(t, state);
    case OnCommit(q) => CommitKeepsInv(t, q, fingerprint);
  }

  /** In every reachable state the reconciliations of a binding form a gap-free chain to its current
      revision, and account for every observation stored for it. */
  lemma {:induction false} RunKeepsInv(t: State, es: seq<Event>, fingerprint: Fingerprint)
    requires Inv(t)
    ensures Inv(Run(t, es, fingerprint))
    decreases |es|
  {
    hide Inv, Step;
    if es != [] {
      StepKeepsInv(t, es[0], fingerprint);
      RunKeepsInv(Step(t, es[0], fingerprint), es[1..], fingerprint);
    }
  }

  // ---------------------------------------------------------------- whole runs

  ghost predicate BindingsForward(t: State, t': State) {
    forall b :: b in t.bindings ==>
      b in t'.bindings && Continues(t.bindings[b].state, t'.bindings[b].state)
        && t.bindings[b].revision <= t'.bindings[b].revision
  }

  ghost predicate ObservationsKept(t: State, t': State) {
    forall id :: id in t.observations ==> id in t'.observations && t'.observations[id] == t.observations[id]
  }

  /** What was stored for a binding in between is not behind the cursor it started from. */
  ghost predicate AddedBeyondCursor(t: State, t': State) {
    forall id :: id in t'.observations && id !in t.observations ==>
      var o := t'.observations[id];
      o.binding in t.bindings && o.provider == Gmail ==> t.bindings[o.binding].state.cursor <= o.cursor
  }

  /** Bindings only move on, stored observations and reconciliations stay, and what is added lies
      beyond the cursor. */
  ghost predicate Forward(t: State, t': State) {
    BindingsForward(t, t') && ObservationsKept(t, t') && t.reconciliations <= t'.reconciliations
      && AddedBeyondCursor(t, t')
  }

  lemma BindingsForwardTwice(a: State, b: State, c: State)
    requires BindingsForward(a, b) && BindingsForward(b, c)
    ensures BindingsForward(a, c)
  {
  }

  lemma AddedTwice(a: State, b: State, c: State)
    requires AddedBeyondCursor(a, b) && AddedBeyondCursor(b, c) && BindingsForward(a, b) && ObservationsKept(b, c)
             && ObservationsPlaced(b)
    requires forall id :: id in c.observations && c.observations[id].binding in a.bindings ==>
               c.observations[id].provider == a.bindings[c.observations[id].binding].state.provider
    ensures AddedBeyondCursor(a, c)
  {
  }

  lemma ForwardIsTransitive(a: State, b: State, c: State)
    requires Forward(a, b) && Forward(b, c) && ObservationsPlaced(c) && ObservationsPlaced(b)
    ensures Forward(a, c)
  {
    hide BindingsForward, AddedBeyondCursor, ObservationsPlaced;
    BindingsForwardTwice(a, b, c);
    SameProviders(a, c);
    AddedTwice(a, b, c);
  }

  lemma SameProviders(a: State, c: State)
    requires BindingsForward(a, c) && ObservationsPlaced(c)
    ensures forall id :: id in c.observations && c.observations[id].binding in a.bindings ==>
              c.observations[id].provider == a.bindings[c.observations[id].binding].state.provider
  {
  }

  lemma ForwardItself(t: State)
    ensures Forward(t, t)
  {
  }

  lemma StepForward(t: State, e: Event, fingerprint: Fingerprint)
    requires Inv(t)
    ensures Forward(t, Step(t, e, fingerprint))
  {
    hide Merged, Find, Chained, Distinct, Conserved, BindingsCurrent, Count;
    if e.OnCommit? && Commit(t, e.request, fingerprint).1.Committed? {
      var q := e.request;
      MergedHas(t.observations, q.observations);
      var t' := Step(t, e, fingerprint);
      forall id | id in t'.observations && id !in t.observations && t'.observations[id].provider == Gmail
        ensures t.bindings[q.binding].state.cursor <= t'.observations[id].cursor
                && t'.observations[id].binding == q.binding
      {
        var i :| 0 <= i < |q.observations| && q.observations[i] == t'.observations[id];
        assert Belongs(q.observations[i], q.binding, q.next.provider)
               && CursorFits(q.observations[i], t.bindings[q.binding].state.cursor, q.next.cursor);
      }
      forall b | b in t.bindings ensures Continues(t.bindings[b].state, t'.bindings[b].state) {
        ContinuesItself(t.bindings[b].state);
      }
    } else {
      ForwardItself(t);
      if e.OnInitialize? {
        forall b | b in t.bindings ensures Continues(t.bindings[b].state, t.bindings[b].state) {
          ContinuesItself(t.bindings[b].state);
        }
      }
    }
  }

  lemma ContinuesItself(s: Subscription)
    ensures Continues(s, s)
  {
  }

  /** Over any run no cursor of a Gmail binding regresses, nothing stored is lost, and every Gmail
      observation stored in the run lies between the cursor at its start and the cursor at its end. */
  lemma {:induction false} CursorsNeverRegress(t: State, es: seq<Event>, fingerprint: Fingerprint)
    requires Inv(t)
    ensures Forward(t, Run(t, es, fingerprint)) && ObservationsPlaced(Run(t, es, fingerprint))
    decreases |es|
  {
    hide Chained, Distinct, BindingsCurrent, ObservationsPlaced, Conserved, Step, Forward;
    if es == [] {
      ForwardItself(t);
    } else {
      StepKeepsInv(t, es[0], fingerprint);
      StepForward(t, es[0], fingerprint);
      var t1 := Step(t, es[0], fingerprint);
      CursorsNeverRegress(t1, es[1..], fingerprint);
      RunKeepsInv(t1, es[1..], fingerprint);
      ForwardIsTransitive(t, t1, Run(t, es, fingerprint));
    }
  }

  /** From its initialisation on, every observation stored for a Gmail binding lies between its initial
      and its current cursor. */
  lemma ObservationsWithinCursors(t: State, state: Subscription, es: seq<Event>, fingerprint: Fingerprint, id: Id)
    requires Inv(t) && Initialize(t, state).1.Initialized? && state.provider == Gmail
    ensures var t' := Run(Initialize(t, state).0, es, fingerprint);
            && state.binding in t'.bindings
            && (id in t'.observations && t'.observations[id].binding == state.binding ==>
                  state.cursor <= t'.observations[id].cursor <= t'.bindings[state.binding].state.cursor)
  {
    hide Run, Chained, Distinct, Conserved, Inv;
    assert ObservationsPlaced(t) by { PlacedObservations(t); }
    InitializeKeepsInv(t, state);
    var t0 := Initialize(t, state).0;
    CursorsNeverRegress(t0, es, fingerprint);
    assert t0.bindings[state.binding].state == state;
  }

  lemma PlacedObservations(t: State)
    requires Inv(t)
    ensures ObservationsPlaced(t)
  {
  }

  /** Repeating a reconciliation, at any later time, changes nothing and reports what it reported. */
  lemma RepeatingChangesNothing(t: State, q: Request, es: seq<Event>, fingerprint: Fingerprint)
    requires Inv(t) && Commit(t, q, fingerprint).1.Committed?
    ensures var t' := Run(Commit(t, q, fingerprint).0, es, fingerprint);
            var outcome := Commit(t, q, fingerprint).1;
            Commit(t', q, fingerprint) == (t', Duplicate(outcome.revision, outcome.inserted))
  {
    hide Merged, Chained, BindingsCurrent, ObservationsPlaced, Conserved, Committable, Find;
    CommitKeepsInv(t, q, fingerprint);
    var t1 := Commit(t, q, fingerprint).0;
    CursorsNeverRegress(t1, es, fingerprint);
    RunKeepsInv(t1, es, fingerprint);
    var t' := Run(t1, es, fingerprint);
    var n := |t.reconciliations|;
    assert t1.reconciliations[n] == t'.reconciliations[n];
    var prior := Find(t'.reconciliations, q.binding, q.reconciliation);
    assert prior == n;
  }
}
