/** The repository-write mutations over the receipt and lane tables, branch by branch. */
module RepositoryWrites {
  import opened Base
  import opened RepositoryWriteModel

  class RepositoryWrites {
    var receipts: seq<Receipt>
    var lanes: map<Ref, Lane>

    ghost function Contents(): State
      reads this
    {
      State(receipts, lanes)
    }

    ghost predicate Valid()
      reads this
    {
      Inv(Contents())
    }

    constructor ()
      ensures Valid() && Contents() == EMPTY
    {
      receipts, lanes := [], map[];
    }

    /** The lanes a stored receipt owns fit its state; false where the check throws. */
    method LaneCoherent(i: nat) returns (ok: bool)
      requires Valid() && i < |receipts|
      ensures ok
    {
      hide Inv, OwnedLanes;
      OwnerOwnsOneLane(Contents(), i);
      LaneMeansOneBlocker(Contents(), receipts[i].identity.ref);
      var receipt := receipts[i];
      var owned := OwnedLanes(lanes, receipt.identity.id);
      if !Blocks(receipt) {
        return |owned| == 0;
      }
      if |owned| != 1 {
        return false;
      }
      if receipt.identity.ref !in lanes || receipt.identity.ref !in owned {
        return false;
      }
      return lanes[receipt.identity.ref] == LaneOf(receipt);
    }

    method Reserve(q: Receipt) returns (outcome: ReserveOutcome)
      requires Valid()
      modifies this
      ensures Valid()
      ensures (Contents(), outcome) == RepositoryWriteModel.Reserve(old(Contents()), q)
    {
      hide Inv, ByKey, ById, NewestRow, Admitted;
      ReserveKeepsInv(Contents(), q);
      LaneMeansOneBlocker(Contents(), q.identity.ref);
      if !Admitted(q) || q.state != Reserved || q.dispatchCount != 0 {
        return ReserveRefused;
      }
      var row := ByKey(receipts, q.identity.key);
      if row >= 0 {
        var current := receipts[row];
        var coherent := LaneCoherent(row);
        if !coherent {
          assert false;
          return ReserveRefused;
        }
        return if SameRequest(current, q) then Replay(current) else Conflict(current);
      }
      if ById(receipts, q.identity.id) >= 0 {
        return ReserveRefused;
      }
      var ref := q.identity.ref;
      if ref in lanes {
        var ownerRow := ById(receipts, lanes[ref].owner);
        if ownerRow < 0 {
          assert false;
          return ReserveRefused;
        }
        var owner := receipts[ownerRow];
        if lanes[ref] != LaneOf(owner) || owner.identity.ref != ref {
          assert false;
          return ReserveRefused;
        }
        if !Blocks(owner) {
          assert false;
          return ReserveRefused;
        }
        return Blocked(owner);
      }
      receipts := receipts + [q];
      lanes := lanes[ref := Lane(q.identity.id, q.identity.parentSha, q.identity.createdAt, q.updatedAt)];
      return Accepted(q);
    }

    method Transition(action: Action, current: Receipt, next: Receipt) returns (outcome: TransitionOutcome)
      requires Valid()
      modifies this
      ensures Valid()
      ensures (Contents(), outcome) == RepositoryWriteModel.Transition(old(Contents()), action, current, next)
    {
      hide Inv, ByKey, ById, NewestRow, Admitted, ExpectedTransition, ValidView;
      TransitionKeepsInv(Contents(), action, current, next);
      if !Admitted(current) || !Admitted(next) {
        return TransitionRefused;
      }
      var row := ByKey(receipts, current.identity.key);
      if row < 0 {
        return TransitionRefused;
      }
      var stored := receipts[row];
      if !ValidView(stored, current) {
        return TransitionRefused;
      }
      if next.updatedAt < current.updatedAt {
        return TransitionRefused;
      }
      var expected := ExpectedTransition(action, current, next);
      if expected != Some(next) {
        return TransitionRefused;
      }
      StoredRow(Contents(), row);
      TransitionMoves(action, stored, current, next);
      ReleasesExactlyWhen(action, current, next);
      LaneMeansOneBlocker(Contents(), stored.identity.ref);
      var ref := stored.identity.ref;
      if ref !in lanes || lanes[ref] != LaneOf(stored) {
        assert false;
        return TransitionRefused;
      }
      receipts := receipts[row := next];
      if action == RejectAndRelease || action == ReleaseVerified {
        lanes := lanes - {ref};
      } else {
        lanes := lanes[ref := lanes[ref].(updatedAt := next.updatedAt)];
      }
      return Applied(next);
    }

    method Get(key: Id) returns (receipt: Option<Receipt>)
      requires Valid()
      ensures receipt == var i := ByKey(receipts, key); if i < 0 then None else Some(receipts[i])
    {
      var row := ByKey(receipts, key);
      if row < 0 {
        return None;
      }
      var coherent := LaneCoherent(row);
      if !coherent {
        assert false;
        return None;
      }
      return Some(receipts[row]);
    }
  }
}
