/** The mailbox-intake mutations over the three tables, branch by branch: a batch is first reduced to
    one entry for each ID, then inserted entry by entry. */
module MailboxIntake {
  import opened Base
  import opened MailboxIntakeModel

  class MailboxIntake {
    var bindings: map<Id, Binding>
    var observations: map<Id, Observation>
    var reconciliations: seq<Reconciliation>
    const fingerprint: Fingerprint

    ghost function Contents(): State
      reads this
    {
      State(bindings, observations, reconciliations)
    }

    ghost predicate Valid()
      reads this
    {
      Inv(Contents())
    }

    constructor (fingerprint: Fingerprint)
      ensures Valid() && Contents() == EMPTY && this.fingerprint == fingerprint
    {
      bindings, observations, reconciliations := map[], map[], [];
      this.fingerprint := fingerprint;
    }

    method Initialize(state: Subscription) returns (outcome: InitializeOutcome)
      requires Valid()
      modifies this
      ensures Valid()
      ensures (Contents(), outcome) == MailboxIntakeModel.Initialize(old(Contents()), state)
    {
      hide Inv;
      InitializeKeepsInv(Contents(), state);
      if state.binding in bindings {
        var existing := bindings[state.binding];
        if existing.state != state {
          return InitializeConflict;
        }
        return AlreadyInitialized(existing.revision);
      }
      bindings := bindings[state.binding := Binding(state, 1)];
      return Initialized;
    }

    /** The batch with one entry for each ID, in first-seen order; None when an ID stands for two. */
    static method Unique(batch: seq<Observation>) returns (unique: Option<seq<Observation>>)
      ensures unique.Some? <==> Consistent(map[], batch)
      ensures unique.Some? ==> DistinctIds(unique.value) && SameObservations(unique.value, batch)
    {
      hide DistinctIds, SameObservations, Consistent;
      var seen: map<Id, Observation> := map[];
      var kept: seq<Observation> := [];
      NothingKept(batch);
      for i := 0 to |batch|
        invariant forall id :: id in seen ==> seen[id] in kept && seen[id].id == id
        invariant forall a :: 0 <= a < |kept| ==> kept[a].id in seen && seen[kept[a].id] == kept[a]
        invariant DistinctIds(kept) && SameObservations(kept, batch[..i])
      {
        var o := batch[i];
        if o.id in seen && seen[o.id] != o {
          ConflictFound(batch, kept, i, seen[o.id]);
          return None;
        }
        KeepOne(kept, batch, i, o.id in seen);
        if o.id !in seen {
          kept := kept + [o];
        }
        seen := seen[o.id := o];
      }
      assert batch[..|batch|] == batch;
      KeptIsConsistent(kept, batch);
      return Some(kept);
    }

    /** Insert the observations that are not stored yet; None, changing nothing, when a stored one differs. */
    method InsertObservations(unique: seq<Observation>) returns (inserted: Option<nat>)
      requires DistinctIds(unique)
      modifies this`observations
      ensures inserted.Some? <==> forall i :: 0 <= i < |unique| && unique[i].id in old(observations) ==>
                old(observations)[unique[i].id] == unique[i]
      ensures inserted.None? ==> observations == old(observations)
      ensures inserted.Some? ==>
                observations == Merged(old(observations), unique)
                  && |observations| == |old(observations)| + inserted.value
    {
      var before := observations;
      var n := 0;
      for i := 0 to |unique|
        invariant observations == Merged(before, unique[..i]) && |observations| == |before| + n
        invariant forall a :: 0 <= a < i && unique[a].id in before ==> before[unique[a].id] == unique[a]
        invariant forall id :: id in before ==> id in observations && observations[id] == before[id]
        invariant forall id :: id in observations && id !in before ==> exists a :: 0 <= a < i && unique[a].id == id
      {
        var o := unique[i];
        assert unique[..i + 1][..i] == unique[..i] && unique[..i + 1][i] == o;
        assert o.id in observations ==> o.id in before;
        if o.id in observations {
          if observations[o.id] != o {
            observations := before;
            return None;
          }
          assert observations[o.id := o] == observations;
        } else {
          observations := observations[o.id := o];
          n := n + 1;
        }
      }
      assert unique[..|unique|] == unique;
      return Some(n);
    }

    method CommitReconciliation(q: Request) returns (outcome: CommitOutcome)
      requires Valid()
      modifies this
      ensures Valid()
      ensures (Contents(), outcome) == Commit(old(Contents()), q, fingerprint)
    {
      hide Inv, Find, Merged, Consistent, Continues, Belongs;
      CommitKeepsInv(Contents(), q, fingerprint);
      if q.expectedRevision < 1 || |q.observations| > MAX_BATCH || q.next.binding != q.binding {
        return CommitRefused;
      }
      if exists i :: 0 <= i < |q.observations| && !Belongs(q.observations[i], q.binding, q.next.provider) {
        return CommitRefused;
      }
      var prior := Find(reconciliations, q.binding, q.reconciliation);
      if prior >= 0 {
        if reconciliations[prior].fingerprint != fingerprint(q) {
          return CommitRefused;
        }
        return Duplicate(reconciliations[prior].nextRevision, reconciliations[prior].inserted);
      }
      outcome := CommitNew(q);
    }

    /** The rest of a commit whose reconciliation ID is new. */
    method CommitNew(q: Request) returns (outcome: CommitOutcome)
      requires WellFormed(q) && Find(reconciliations, q.binding, q.reconciliation) < 0
      modifies this
      ensures (Contents(), outcome) == Commit(old(Contents()), q, fingerprint)
    {
      hide Find, Merged, Continues, CursorFits, Consistent;
      if q.binding !in bindings {
        return CommitRefused;
      }
      var binding := bindings[q.binding];
      if binding.revision != q.expectedRevision {
        return CommitRefused;
      }
      if binding.state.cursor != q.expectedCursor {
        return CommitRefused;
      }
      if !Continues(binding.state, q.next) {
        return CommitRefused;
      }
      if exists i :: 0 <= i < |q.observations| && !CursorFits(q.observations[i], binding.state.cursor, q.next.cursor) {
        return CommitRefused;
      }
      var unique := Unique(q.observations);
      ConsistentSplits(observations, q.observations);
      if unique.None? {
        return CommitRefused;
      }
      UniqueMerges(observations, q.observations, unique.value);
      var inserted := InsertObservations(unique.value);
      if inserted.None? {
        return CommitRefused;
      }
      var nextRevision := binding.revision + 1;
      bindings := bindings[q.binding := Binding(q.next, nextRevision)];
      reconciliations := reconciliations
        + [Reconciliation(q.binding, q.reconciliation, fingerprint(q), binding.revision, nextRevision, inserted.value)];
      return Committed(nextRevision, inserted.value);
    }
  }

  ghost predicate DistinctIds(s: seq<Observation>) {
    forall i, j :: 0 <= i < j < |s| ==> s[i].id != s[j].id
  }

  ghost predicate SameObservations(a: seq<Observation>, b: seq<Observation>) {
    (forall o :: o in a ==> o in b) && (forall o :: o in b ==> o in a)
  }

  lemma NothingKept(batch: seq<Observation>)
    ensures DistinctIds([]) && SameObservations([], batch[..0])
  {
  }

  lemma ConflictFound(batch: seq<Observation>, kept: seq<Observation>, i: nat, earlier: Observation)
    requires i < |batch| && SameObservations(kept, batch[..i]) && earlier in kept && earlier.id == batch[i].id
             && earlier != batch[i]
    ensures !Consistent(map[], batch)
  {
    assert earlier in batch[..i];
    var a :| 0 <= a < i && batch[a] == earlier;
  }

  lemma KeepOne(kept: seq<Observation>, batch: seq<Observation>, i: nat, known: bool)
    requires i < |batch| && DistinctIds(kept) && SameObservations(kept, batch[..i])
    requires if known then batch[i] in kept else forall a :: 0 <= a < |kept| ==> kept[a].id != batch[i].id
    ensures var kept' := if known then kept else kept + [batch[i]];
            DistinctIds(kept') && SameObservations(kept', batch[..i + 1])
  {
    assert batch[..i + 1] == batch[..i] + [batch[i]];
  }

  lemma KeptIsConsistent(kept: seq<Observation>, batch: seq<Observation>)
    requires DistinctIds(kept) && SameObservations(kept, batch)
    ensures Consistent(map[], batch)
  {
    forall i, j | 0 <= i < j < |batch| && batch[i].id == batch[j].id ensures batch[i] == batch[j] {
      assert batch[i] in kept && batch[j] in kept;
    }
  }

  ghost predicate StoredAgree(stored: map<Id, Observation>, batch: seq<Observation>) {
    forall i :: 0 <= i < |batch| && batch[i].id in stored ==> stored[batch[i].id] == batch[i]
  }

  lemma ConsistentSplits(stored: map<Id, Observation>, batch: seq<Observation>)
    ensures Consistent(stored, batch) <==> Consistent(map[], batch) && StoredAgree(stored, batch)
  {
  }

  /** Storing the distinct entries stores the batch. */
  lemma UniqueMerges(stored: map<Id, Observation>, batch: seq<Observation>, unique: seq<Observation>)
    requires Consistent(map[], batch) && DistinctIds(unique) && SameObservations(unique, batch)
    ensures StoredAgree(stored, unique) <==> StoredAgree(stored, batch)
    ensures StoredAgree(stored, batch) ==> Merged(stored, unique) == Merged(stored, batch)
  {
    hide Merged;
    assert forall i :: 0 <= i < |batch| ==> batch[i] in unique;
    assert forall i :: 0 <= i < |unique| ==> unique[i] in batch;
    if StoredAgree(stored, batch) {
      assert Consistent(stored, unique) && Consistent(stored, batch);
      MergedHas(stored, unique);
      MergedHas(stored, batch);
      SameMerges(stored, batch, unique);
    }
  }

  lemma SameMerges(stored: map<Id, Observation>, batch: seq<Observation>, unique: seq<Observation>)
    requires Consistent(stored, unique) && Consistent(stored, batch) && SameObservations(unique, batch)
    ensures Merged(stored, unique) == Merged(stored, batch)
  {
    hide Merged;
    var a, b := Merged(stored, unique), Merged(stored, batch);
    MergedHas(stored, unique);
    MergedHas(stored, batch);
    forall id ensures (id in a <==> id in b) && (id in a ==> a[id] == b[id]) {
      if id in a && id !in stored { assert a[id] in unique && a[id] in batch; }
      if id in b && id !in stored { assert b[id] in batch && b[id] in unique; }
    }
  }
}
