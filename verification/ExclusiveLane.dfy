/** The idea that outbound mail, repository writes and mailbox dispositions share: whoever reserves a
    key holds its lane until the matter is settled, or withdrawn while its outcome is open. */
module ExclusiveLane {

  datatype Phase<R> = Reserved | Held | Settled(result: R)

  datatype Entry<K, R> = Entry(key: K, phase: Phase<R>)

  /** entries: every owner known; lanes: the owner that holds each key. */
  datatype Lanes<O, K, R> = Lanes(entries: map<O, Entry<K, R>>, lanes: map<K, O>)

  predicate Undecided<O, K, R>(s: Lanes<O, K, R>, o: O) { o in s.entries && !s.entries[o].phase.Settled? }

  ghost predicate Reserves<O, K, R>(s: Lanes<O, K, R>, s': Lanes<O, K, R>, o: O, k: K) {
    o !in s.entries && k !in s.lanes && s' == Lanes(s.entries[o := Entry(k, Reserved)], s.lanes[k := o])
  }

  ghost predicate Holds<O, K, R>(s: Lanes<O, K, R>, s': Lanes<O, K, R>, o: O) {
    Undecided(s, o) && s' == s.(entries := s.entries[o := s.entries[o].(phase := Held)])
  }

  ghost predicate Settles<O, K, R>(s: Lanes<O, K, R>, s': Lanes<O, K, R>, o: O, result: R) {
    && Undecided(s, o)
    && s' == Lanes(s.entries[o := s.entries[o].(phase := Settled(result))], s.lanes - {s.entries[o].key})
  }

  ghost predicate Withdraws<O, K, R>(s: Lanes<O, K, R>, s': Lanes<O, K, R>, o: O) {
    Undecided(s, o) && s.entries[o].phase.Held? && s' == Lanes(s.entries - {o}, s.lanes - {s.entries[o].key})
  }

  /** One step of the lane, possibly one that changes nothing. */
  ghost predicate Next<O(!new), K(!new), R(!new)>(s: Lanes<O, K, R>, s': Lanes<O, K, R>) {
    || s' == s
    || (exists o, k :: Reserves(s, s', o, k))
    || (exists o :: Holds(s, s', o))
    || (exists o, result :: Settles(s, s', o, result))
    || (exists o :: Withdraws(s, s', o))
  }

  /** A lane is held exactly by the undecided owner of its key. */
  ghost predicate Exclusive<O(!new), K(!new), R>(s: Lanes<O, K, R>) {
    && (forall o :: Undecided(s, o) ==> s.entries[o].key in s.lanes && s.lanes[s.entries[o].key] == o)
    && (forall k :: k in s.lanes ==> Undecided(s, s.lanes[k]) && s.entries[s.lanes[k]].key == k)
  }

  lemma NextKeepsExclusive<O(!new), K(!new), R(!new)>(s: Lanes<O, K, R>, s': Lanes<O, K, R>)
    requires Exclusive(s) && Next(s, s')
    ensures Exclusive(s')
  {
  }

  function Rank<R>(p: Phase<R>): nat { match p case Reserved => 0 case Held => 1 case Settled(_) => 2 }

  /** An owner keeps its key, never falls back to an earlier phase, and keeps a result it has. */
  lemma NextMovesForward<O(!new), K(!new), R(!new)>(s: Lanes<O, K, R>, s': Lanes<O, K, R>, o: O)
    requires Next(s, s') && o in s.entries && o in s'.entries
    ensures s'.entries[o].key == s.entries[o].key
    ensures Rank(s.entries[o].phase) <= Rank(s'.entries[o].phase)
    ensures s.entries[o].phase.Settled? ==> s'.entries[o] == s.entries[o]
  {
  }

  lemma NextKeepsSettled<O(!new), K(!new), R(!new)>(s: Lanes<O, K, R>, s': Lanes<O, K, R>, o: O)
    requires Next(s, s') && o in s.entries && s.entries[o].phase.Settled?
    ensures o in s'.entries && s'.entries[o] == s.entries[o]
  {
  }

  ghost predicate Behaviour<O(!new), K(!new), R(!new)>(b: seq<Lanes<O, K, R>>) {
    b != [] && Exclusive(b[0]) && forall i :: 0 <= i < |b| - 1 ==> Next(b[i], b[i + 1])
  }

  lemma Prepend<O(!new), K(!new), R(!new)>(s: Lanes<O, K, R>, b: seq<Lanes<O, K, R>>)
    requires Behaviour(b) && Exclusive(s) && Next(s, b[0])
    ensures Behaviour([s] + b)
  {
    hide Next, Exclusive;
    var c := [s] + b;
    forall i | 0 <= i < |c| - 1 ensures Next(c[i], c[i + 1]) {
      if i > 0 { assert Next(b[i - 1], b[i]); }
    }
  }

  /** In every state of every behaviour, a lane is held exactly by the undecided owner of its key. */
  lemma {:induction false} BehaviourIsExclusive<O(!new), K(!new), R(!new)>(b: seq<Lanes<O, K, R>>, n: nat)
    requires Behaviour(b) && n < |b|
    ensures Exclusive(b[n])
  {
    if n > 0 {
      BehaviourIsExclusive(b, n - 1);
      NextKeepsExclusive(b[n - 1], b[n]);
    }
  }

  /** A result, once there, is there for ever, and its owner never holds the lane again. */
  lemma {:induction false} SettledForEver<O(!new), K(!new), R(!new)>(b: seq<Lanes<O, K, R>>, i: nat, n: nat, o: O)
    requires Behaviour(b) && i <= n < |b| && o in b[i].entries && b[i].entries[o].phase.Settled?
    ensures o in b[n].entries && b[n].entries[o] == b[i].entries[o]
    ensures forall k :: k in b[n].lanes ==> b[n].lanes[k] != o
  {
    BehaviourIsExclusive(b, n);
    if i < n {
      SettledForEver(b, i, n - 1, o);
      NextKeepsSettled(b[n - 1], b[n], o);
    }
  }

  ghost predicate HasLane<O, K, R>(s: Lanes<O, K, R>, k: K, o: O) { k in s.lanes && s.lanes[k] == o }

  /** An owner that was there all the time keeps its key. */
  lemma {:induction false} KeyStays<O(!new), K(!new), R(!new)>(b: seq<Lanes<O, K, R>>, i: nat, n: nat, o: O)
    requires Behaviour(b) && i <= n < |b| && forall j :: i <= j <= n ==> o in b[j].entries
    ensures b[n].entries[o].key == b[i].entries[o].key
  {
    if i < n {
      KeyStays(b, i, n - 1, o);
      NextMovesForward(b[n - 1], b[n], o);
    }
  }

  /** Ownership intervals of one key do not overlap: once owner a has lost the key to owner c, it never
      holds it again, unless it was withdrawn in between and came back. */
  lemma IntervalsDoNotOverlap<O(!new), K(!new), R(!new)>(b: seq<Lanes<O, K, R>>, i: nat, n: nat, m: nat, k: K, a: O,
          c: O)
    requires Behaviour(b) && i < n <= m < |b| && HasLane(b[i], k, a) && HasLane(b[n], k, c) && a != c
    ensures HasLane(b[m], k, a) ==> exists j :: i < j <= n && a !in b[j].entries
  {
    BehaviourIsExclusive(b, i);
    BehaviourIsExclusive(b, n);
    if forall j :: i <= j <= n ==> a in b[j].entries {
      KeyStays(b, i, n, a);
      SettledForEver(b, n, m, a);
    } else {
      var j :| i <= j <= n && a !in b[j].entries;
      assert j != i;
    }
  }

  // ---------------------------------------------------------------- a table of rows as a map

  /** The rows of a table by owner. */
  function ByOwner<O(==), V>(rows: seq<(O, V)>): map<O, V> {
    if rows == [] then map[] else ByOwner(rows[..|rows| - 1])[rows[|rows| - 1].0 := rows[|rows| - 1].1]
  }

  ghost predicate DistinctOwners<O, V>(rows: seq<(O, V)>) {
    forall i, j :: 0 <= i < j < |rows| ==> rows[i].0 != rows[j].0
  }

  lemma ByOwnerAppend<O, V>(rows: seq<(O, V)>, row: (O, V))
    ensures ByOwner(rows + [row]) == ByOwner(rows)[row.0 := row.1]
  {
    assert (rows + [row])[..|rows|] == rows;
  }

  lemma {:induction false} ByOwnerReads<O, V>(rows: seq<(O, V)>)
    requires DistinctOwners(rows)
    ensures forall i :: 0 <= i < |rows| ==> rows[i].0 in ByOwner(rows) && ByOwner(rows)[rows[i].0] == rows[i].1
    ensures forall o :: o in ByOwner(rows) ==> exists i :: 0 <= i < |rows| && rows[i].0 == o
  {
    if rows != [] {
      var n := |rows| - 1;
      ByOwnerReads(rows[..n]);
      forall o | o in ByOwner(rows) ensures exists i :: 0 <= i < |rows| && rows[i].0 == o {
        if o != rows[n].0 {
          var i :| 0 <= i < n && rows[..n][i].0 == o;
          assert rows[i].0 == o;
        }
      }
    }
  }

  lemma {:induction false} ByOwnerUpdate<O, V>(rows: seq<(O, V)>, i: nat, value: V)
    requires DistinctOwners(rows) && i < |rows|
    ensures ByOwner(rows[i := (rows[i].0, value)]) == ByOwner(rows)[rows[i].0 := value]
  {
    var n := |rows| - 1;
    var rows' := rows[i := (rows[i].0, value)];
    if i < n {
      ByOwnerUpdate(rows[..n], i, value);
      assert rows'[..n] == rows[..n][i := (rows[i].0, value)];
    } else {
      assert rows'[..n] == rows[..n];
    }
  }

  /** The lanes that rows and holders describe. */
  function OfRows<O(==), K, R>(rows: seq<(O, Entry<K, R>)>, holders: map<K, O>): Lanes<O, K, R> {
    Lanes(ByOwner(rows), holders)
  }

  lemma AppendIsNext<O(!new), K(!new), R(!new)>(rows: seq<(O, Entry<K, R>)>, holders: map<K, O>, o: O, k: K)
    requires DistinctOwners(rows) && k !in holders
    requires forall i :: 0 <= i < |rows| ==> rows[i].0 != o
    ensures Next(OfRows(rows, holders), OfRows(rows + [(o, Entry(k, Reserved))], holders[k := o]))
  {
    ByOwnerAppend(rows, (o, Entry(k, Reserved)));
    ByOwnerReads(rows);
    assert Reserves(OfRows(rows, holders), OfRows(rows + [(o, Entry(k, Reserved))], holders[k := o]), o, k);
  }

  lemma UpdateIsNext<O(!new), K(!new), R(!new)>(rows: seq<(O, Entry<K, R>)>, holders: map<K, O>, i: nat,
          phase: Phase<R>)
    requires DistinctOwners(rows) && i < |rows| && !rows[i].1.phase.Settled? && !phase.Reserved?
    ensures var k := rows[i].1.key;
            Next(OfRows(rows, holders),
              OfRows(rows[i := (rows[i].0, Entry(k, phase))], if phase.Held? then holders else holders - {k}))
  {
    hide ByOwner, Next;
    var o, k := rows[i].0, rows[i].1.key;
    ByOwnerUpdate(rows, i, Entry(k, phase));
    ByOwnerReads(rows);
    var s, s' := OfRows(rows, holders),
      OfRows(rows[i := (o, Entry(k, phase))], if phase.Held? then holders else holders - {k});
    assert s.entries[o] == rows[i].1;
    if phase.Held? { HoldIsNext(s, s', o); } else { SettleIsNext(s, s', o, phase.result); }
  }

  lemma ReserveIsNext<O(!new), K(!new), R(!new)>(s: Lanes<O, K, R>, s': Lanes<O, K, R>, o: O, k: K)
    requires Reserves(s, s', o, k)
    ensures Next(s, s')
  {
  }

  lemma HoldIsNext<O(!new), K(!new), R(!new)>(s: Lanes<O, K, R>, s': Lanes<O, K, R>, o: O)
    requires Holds(s, s', o)
    ensures Next(s, s')
  {
  }

  lemma SettleIsNext<O(!new), K(!new), R(!new)>(s: Lanes<O, K, R>, s': Lanes<O, K, R>, o: O, result: R)
    requires Settles(s, s', o, result)
    ensures Next(s, s')
  {
  }

  ghost predicate HeldByUndecided<O, K, R>(rows: seq<(O, Entry<K, R>)>, o: O, k: K) {
    exists i :: 0 <= i < |rows| && rows[i].0 == o && rows[i].1.key == k && !rows[i].1.phase.Settled?
  }

  lemma RowsAreExclusive<O(!new), K(!new), R(!new)>(rows: seq<(O, Entry<K, R>)>, holders: map<K, O>)
    requires DistinctOwners(rows)
    requires forall i :: 0 <= i < |rows| && !rows[i].1.phase.Settled? ==>
               rows[i].1.key in holders && holders[rows[i].1.key] == rows[i].0
    requires forall k :: k in holders ==> HeldByUndecided(rows, holders[k], k)
    ensures Exclusive(OfRows(rows, holders))
  {
    hide ByOwner;
    var s := OfRows(rows, holders);
    ByOwnerReads(rows);
    forall k | k in holders ensures Undecided(s, holders[k]) && s.entries[holders[k]].key == k {
      assert HeldByUndecided(rows, holders[k], k);
    }
  }
}
