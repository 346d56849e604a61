/** What initialising a mailbox binding and committing a reconciliation answer and leave, said of the columns
    of bindings, observations and reconciliations alone. */
module MailboxIntakeOutcomes {
  import opened Base
  import opened MailboxIntakeModel

  /** A binding is initialised exactly once, at revision one; repeating that is answered, and another state is
      a conflict. */
  lemma InitializeExactly(t: State, state: Subscription)
    ensures Initialize(t, state) ==
              if state.binding !in t.bindings then
                (State(t.bindings[state.binding := Binding(state, 1)], t.observations, t.reconciliations), Initialized)
              else if t.bindings[state.binding].state == state then
                (t, AlreadyInitialized(t.bindings[state.binding].revision))
              else (t, InitializeConflict)
  {
  }

  /** The batch is of the binding and its provider, and of 256 observations at most. */
  predicate Batch(q: Request) {
    && 1 <= q.expectedRevision && q.next.binding == q.binding && |q.observations| <= 256
    && forall i :: 0 <= i < |q.observations| ==>
         q.observations[i].binding == q.binding && q.observations[i].provider == q.next.provider
  }

  /** The binding stands where the caller expects it, and may move to where it is to go. */
  predicate MovesOn(b: Binding, q: Request) {
    && b.revision == q.expectedRevision && b.state.cursor == q.expectedCursor && b.state.binding == q.next.binding
    && b.state.provider == q.next.provider && b.state.scopeKind == q.next.scopeKind
    && b.state.scopeId == q.next.scopeId && b.state.cursorKind == q.next.cursorKind
    && (q.next.provider == Gmail ==> b.state.cursor <= q.next.cursor)
  }

  /** Each observation lies between the two cursors, and is the only one of its ID, here and in the table. */
  ghost predicate Fits(stored: map<Id, Observation>, b: Binding, q: Request) {
    forall i :: 0 <= i < |q.observations| ==>
      var o := q.observations[i];
      && (o.provider == Gmail ==> b.state.cursor <= o.cursor && o.cursor <= q.next.cursor)
      && (o.id in stored ==> stored[o.id] == o)
      && forall j :: 0 <= j < |q.observations| && q.observations[j].id == o.id ==> q.observations[j] == o
  }

  ghost predicate CommittedBefore(t: State, q: Request, i: int) {
    0 <= i < |t.reconciliations| && t.reconciliations[i].binding == q.binding
    && t.reconciliations[i].id == q.reconciliation
  }

  lemma FindFinds(t: State, q: Request, i: int)
    requires Inv(t)
    ensures CommittedBefore(t, q, i) <==> i >= 0 && Find(t.reconciliations, q.binding, q.reconciliation) == i
  {
    hide Find, Chained, BindingsCurrent, ObservationsPlaced, Conserved;
  }

  /** A reconciliation is committed exactly once, for a batch that fits a binding that may move on; repeating
      it is answered with what it did. */
  lemma CommitExactly(t: State, q: Request, fingerprint: Fingerprint)
    requires Inv(t)
    ensures Commit(t, q, fingerprint).1.Committed? <==>
              && Batch(q) && (forall i :: !CommittedBefore(t, q, i)) && q.binding in t.bindings
              && MovesOn(t.bindings[q.binding], q) && Fits(t.observations, t.bindings[q.binding], q)
    ensures forall i :: CommittedBefore(t, q, i) && Batch(q) ==>
              Commit(t, q, fingerprint).1 ==
                if t.reconciliations[i].fingerprint == fingerprint(q)
                then Duplicate(t.reconciliations[i].nextRevision, t.reconciliations[i].inserted) else CommitRefused
    ensures !Commit(t, q, fingerprint).1.Committed? ==> Commit(t, q, fingerprint).0 == t
  {
    hide Inv, Find, Merged, CommittedBefore, Fits, Consistent, MovesOn, Continues, CursorFits;
    var n := Find(t.reconciliations, q.binding, q.reconciliation);
    forall i ensures CommittedBefore(t, q, i) <==> i >= 0 && n == i { FindFinds(t, q, i); }
    assert n >= 0 <==> CommittedBefore(t, q, n);
    if q.binding in t.bindings { FitsCommits(t, q); }
    assert Batch(q) <==> WellFormed(q);
  }

  lemma FitsCommits(t: State, q: Request)
    requires q.binding in t.bindings
    ensures Committable(t, q) <==> MovesOn(t.bindings[q.binding], q) && Fits(t.observations, t.bindings[q.binding], q)
  {
  }

  /** The IDs of a batch that are not stored yet. */
  function NewIds(t: State, q: Request): set<Id> {
    set i | 0 <= i < |q.observations| && q.observations[i].id !in t.observations :: q.observations[i].id
  }

  lemma MergedAddsNew(t: State, q: Request)
    requires Consistent(t.observations, q.observations)
    ensures var merged := Merged(t.observations, q.observations);
            && merged.Keys == t.observations.Keys + NewIds(t, q)
            && |merged| == |t.observations| + |NewIds(t, q)|
  {
    hide Merged, Consistent;
    MergedHas(t.observations, q.observations);
    var merged := Merged(t.observations, q.observations);
    forall id ensures id in merged <==> id in t.observations || id in NewIds(t, q) {
      if id in merged && id !in t.observations {
        var i :| 0 <= i < |q.observations| && q.observations[i] == merged[id];
        assert q.observations[i].id == id;
      }
    }
    assert merged.Keys == t.observations.Keys + NewIds(t, q);
    assert |t.observations.Keys + NewIds(t, q)| == |t.observations.Keys| + |NewIds(t, q)|;
  }

  lemma CommitMerges(t: State, q: Request, fingerprint: Fingerprint)
    requires Commit(t, q, fingerprint).1.Committed?
    ensures q.binding in t.bindings && Consistent(t.observations, q.observations)
    ensures var merged := Merged(t.observations, q.observations);
            var revision, inserted := t.bindings[q.binding].revision, |merged| - |t.observations|;
            && inserted >= 0
            && Commit(t, q, fingerprint) ==
                 (State(t.bindings[q.binding := Binding(q.next, revision + 1)], merged,
                        t.reconciliations + [Reconciliation(q.binding, q.reconciliation, fingerprint(q), revision,
                                                            revision + 1, inserted)]),
                  Committed(revision + 1, inserted))
  {
    hide Find, Merged, Continues, CursorFits, Consistent;
    MergedGrows(t.observations, q.observations);
  }

  /** What a commit leaves: the binding at the next revision and its new state; the observations stored and
      those of the batch, and no others; and a row that counts the new ones. */
  lemma CommitEffect(t: State, q: Request, fingerprint: Fingerprint)
    requires Commit(t, q, fingerprint).1.Committed? && q.binding in t.bindings
    ensures var (t', answer) := Commit(t, q, fingerprint);
            var revision, inserted := t.bindings[q.binding].revision, |NewIds(t, q)|;
            && answer == Committed(revision + 1, inserted)
            && t'.bindings == t.bindings[q.binding := Binding(q.next, revision + 1)]
            && t'.reconciliations ==
                 t.reconciliations
                 + [Reconciliation(q.binding, q.reconciliation, fingerprint(q), revision, revision + 1, inserted)]
            && t'.observations.Keys == t.observations.Keys + NewIds(t, q)
            && (forall id :: id in t.observations ==> t'.observations[id] == t.observations[id])
            && (forall i :: 0 <= i < |q.observations| ==> t'.observations[q.observations[i].id] == q.observations[i])
  {
    hide Commit, Merged, Consistent, NewIds;
    CommitMerges(t, q, fingerprint);
    MergedHas(t.observations, q.observations);
    MergedAddsNew(t, q);
  }
}
