/** The outbound mail mutations over the tables themselves, branch by branch. A branch the tables
    can never reach holds `assert false`. */
module MailOutbound {
  import opened Base
  import opened MailOutboundModel

  class MailOutbound {
    var threads: map<Id, Id>
    var effects: seq<Effect>
    var lanes: map<LaneKey, Lane>
    var projections: map<LaneKey, Projection>
    var messages: map<MessageKey, Message>
    const digest: Digest

    ghost function Contents(): Tables
      reads this
    {
      Tables(threads, effects, lanes, projections, messages)
    }

    ghost predicate Valid()
      reads this
    {
      Inv(Contents())
    }

    constructor (digest: Digest)
      ensures Valid() && Contents() == EMPTY && this.digest == digest
    {
      threads, effects, lanes, projections, messages := map[], [], map[], map[], map[];
      this.digest := digest;
    }

    method InsertEffectAndLane(e: Effect)
      requires e.state == Reserved
      modifies this
      ensures Contents() == WithReservation(old(Contents()), e)
    {
      effects := effects + [e];
      lanes := lanes[e.identity.key := Lane(e.identity.mailbox, e.identity.id, Reserved)];
    }

    method RetryEffect(base: Effect, attempt: int) returns (retry: Option<Effect>)
      requires Admitted(base) && base.state == Reserved
      ensures retry.None? <==> attempt < 2 || attempt > MAX_ATTEMPTS
      ensures retry.Some? ==> retry.value == AttemptFor(base, attempt - 1, digest) && Admitted(retry.value)
    {
      if attempt < 2 || attempt > MAX_ATTEMPTS {
        return None;
      }
      var seed := RetrySeed(base.identity.id, base.identity.key, base.identity.mailbox, base.identity.fingerprint,
        attempt);
      var (id, rfc) := digest(seed);
      return Some(Effect(base.identity.(id := id, attempt := attempt, rfcMessage := rfc), base.reservedAt, Reserved,
               None));
    }

    method ReserveEffect(requested: Effect) returns (outcome: ReserveOutcome)
      requires Valid()
      modifies this
      ensures Valid()
      ensures (Contents(), outcome) == Reserve(old(Contents()), requested, digest)
    {
      hide Inv, ById, NewestRow, ReserveContent;
      ReserveKeepsInv(Contents(), requested, digest);
      LaneMeansOneUndecided(Contents(), requested.identity.key);
      var k := requested.identity.key;

      if !Admitted(requested) || requested.state != Reserved || requested.receipt.Some?
        || requested.identity.attempt != 1 {
        return ReserveError(NewEffectInvalid);
      }
      if k.thread !in threads {
        return ReserveError(ThreadNotFound);
      }
      if threads[k.thread] != requested.identity.handle {
        return ReserveError(EffectThreadConflict);
      }
      var prior := NewestRow(effects, k);
      if prior >= 0 && effects[prior].identity.mailbox != requested.identity.mailbox {
        return Conflict(effects[prior]);
      }
      if k in lanes {
        var active := ById(effects, lanes[k].effectId);
        if active < 0 {
          assert false;
          return ReserveError(LaneEffectMissing);
        }
        if lanes[k] != LaneOf(effects[active]) || effects[active].identity.key != k {
          assert false;
          return ReserveError(LaneRowConflict);
        }
        return Blocked(effects[active]);
      }
      outcome := ReserveOnFreeLane(requested);
    }

    /** The second half of the reservation, once the lane is known to be free. */
    method ReserveOnFreeLane(requested: Effect) returns (outcome: ReserveOutcome)
      requires Valid()
      requires Admitted(requested) && requested.state == Reserved && requested.identity.attempt == 1
      requires requested.identity.key !in lanes
      requires var n := NewestRow(effects, requested.identity.key);
               n >= 0 ==> effects[n].identity.mailbox == requested.identity.mailbox
      modifies this
      ensures (Contents(), outcome) == ReserveContent(old(Contents()), requested, digest)
    {
      hide DistinctIds, AllAdmitted, OlderSettled, OneMailbox, AttemptsNumbered, ContentAlternates;
      hide LanesAgree, ProjectionsAgree, MessagesAgree;
      hide ById, NewestRow, HighestAttempt, LastDelivered, Attempts;
      var k, f := requested.identity.key, requested.identity.fingerprint;
      HighestAttemptOnFreeLane(effects, lanes, k, f);
      ProjectionIsLastDelivery(effects, projections, k, f);
      forall i | 0 <= i < |effects| && SameMaterial(effects[i], k, f)
        ensures effects[i].identity.attempt <= Attempts(effects, k, f)
      {
        RetryIsNew(effects, k, f, i);
      }

      var row := HighestAttempt(effects, k, f);
      if row >= 0 {
        var latest := effects[row];
        if latest.identity.mailbox != requested.identity.mailbox {
          assert false;
          return Conflict(latest);
        }
        if latest.state == Reserved || latest.state == Ambiguous {
          assert false;
          return Blocked(latest);
        }
        if latest.state == Sent || latest.state == Reconciled {
          if k !in projections {
            assert false;
            return ReserveError(SuccessProjectionMissing);
          }
          if projections[k].mailbox != requested.identity.mailbox {
            assert false;
            return Conflict(latest);
          }
          if projections[k].fingerprint == f {
            return Replay(latest);
          }
        }
        if latest.state != Failed && latest.state != Sent && latest.state != Reconciled {
          assert false;
          return ReserveError(RetryStateInvalid);
        }
        var retry := RetryEffect(requested, latest.identity.attempt + 1);
        if retry.None? {
          return ReserveError(RetryAttemptInvalid);
        }
        var existing := ById(effects, retry.value.identity.id);
        if existing >= 0 {
          if effects[existing].identity != retry.value.identity {
            return Conflict(effects[existing]);
          }
          assert false;
          return ReserveError(RetryIdentityConsumed);
        }
        InsertEffectAndLane(retry.value);
        return Reservation(retry.value);
      }
      var existing := ById(effects, requested.identity.id);
      if existing >= 0 {
        var found := effects[existing];
        if found.identity == requested.identity {
          assert false;
          return Replay(found);
        }
        return Conflict(found);
      }
      InsertEffectAndLane(requested);
      return Reservation(requested);
    }

    /** Insert or replace the projection of a lane key; None when its ancestry would change. */
    method UpsertProjection(p: Projection) returns (error: Option<ErrorCode>)
      modifies this`projections
      ensures error == if AncestryKept(old(projections), p) then None else Some(ProjectionAncestryConflict)
      ensures projections == if error.None? then old(projections)[p.key := p] else old(projections)
    {
      if p.key in projections {
        var prior := projections[p.key];
        if || prior.mailbox != p.mailbox || prior.providerThread != p.providerThread
           || prior.rootMessage != p.rootMessage || prior.rootRfc != p.rootRfc
        {
          return Some(ProjectionAncestryConflict);
        }
      }
      projections := projections[p.key := p];
      return None;
    }

    /** Index the provider's message ID of a delivery that is about to be settled. */
    method RecordProviderMessage(receipt: Receipt) returns (error: Option<ErrorCode>)
      requires ReceiptAdmitted(receipt) && Successful(receipt.result)
      requires forall m :: m in messages ==> messages[m].effectId != receipt.identity.id
      modifies this`messages
      ensures error == if MessageKeyOf(receipt) in old(messages) then Some(ProviderMessageConflict) else None
      ensures messages == if error.None? then
                old(messages)[MessageKeyOf(receipt) := Message(receipt.identity.mailbox, receipt.identity.id)]
              else old(messages)
    {
      var m := MessageKeyOf(receipt);
      if m in messages {
        var existing := messages[m];
        if existing.mailbox == receipt.identity.mailbox && existing.effectId == receipt.identity.id {
          assert false;
          return None;
        }
        return Some(ProviderMessageConflict);
      }
      if exists other :: other in messages && messages[other].effectId == receipt.identity.id {
        assert false;
        return Some(EffectProviderMessageConflict);
      }
      messages := messages[m := Message(receipt.identity.mailbox, receipt.identity.id)];
      return None;
    }

    method SettleEffect(effect: Effect, receipt: Receipt, projection: Option<Projection>)
      returns (outcome: SettleOutcome)
      requires Valid()
      modifies this
      ensures Valid()
      ensures (Contents(), outcome) == Settle(old(Contents()), effect, receipt, projection)
    {
      hide Inv, ById, NewestRow, SettleUndecided;
      SettleKeepsInv(Contents(), effect, receipt, projection);
      LaneMeansOneUndecided(Contents(), effect.identity.key);
      UndecidedHasNoMessage(Contents(), effect.identity.id);

      if !Admitted(effect) {
        return SettleError(EffectInvalid);
      }
      if !ReceiptAdmitted(receipt) {
        return SettleError(ReceiptInvalid);
      }
      if receipt.identity != effect.identity {
        return SettleError(ReceiptEffectConflict);
      }
      var successful := receipt.result == Sent || receipt.result == Reconciled;
      if successful != projection.Some? {
        return SettleError(ProjectionSettlementConflict);
      }
      if projection.Some? && !ProjectionMatches(projection.value, effect) {
        return SettleError(ProjectionEffectConflict);
      }
      var row := ById(effects, effect.identity.id);
      if row < 0 {
        return SettleError(EffectNotFound);
      }
      var current := effects[row];
      if current.identity != effect.identity {
        return SettleError(EffectIdentityConflict);
      }
      if current.receipt.Some? {
        if current.receipt.value == receipt {
          return Duplicate(current);
        }
        if current.state != Ambiguous {
          return SettleError(TerminalSettlementConflict);
        }
      }
      var k := effect.identity.key;
      if k !in lanes || lanes[k].effectId != effect.identity.id {
        assert false;
        return SettleError(LaneConflict);
      }
      if lanes[k].mailbox != effect.identity.mailbox {
        assert false;
        return SettleError(LaneDestinationConflict);
      }

      outcome := SettleHeldLane(row, effect, receipt, projection);
    }

    /** The second half of the settlement, once row is known to hold the lane. */
    method SettleHeldLane(row: nat, effect: Effect, receipt: Receipt, projection: Option<Projection>)
      returns (outcome: SettleOutcome)
      requires row < |effects| && Admitted(effect) && ReceiptAdmitted(receipt)
      requires receipt.identity == effect.identity == effects[row].identity
      requires Successful(receipt.result) <==> projection.Some?
      requires effect.identity.key in lanes && lanes[effect.identity.key].effectId == effect.identity.id
      requires lanes[effect.identity.key].mailbox == effect.identity.mailbox
      requires forall m :: m in messages ==> messages[m].effectId != effect.identity.id
      modifies this
      ensures (Contents(), outcome) == SettleUndecided(old(Contents()), row, effect, receipt, projection)
    {
      var k := effect.identity.key;
      var before := projections;
      if projection.Some? {
        var error := UpsertProjection(projection.value);
        if error.Some? {
          return SettleError(error.value);
        }
      }
      if Successful(receipt.result) {
        var error := RecordProviderMessage(receipt);
        if error.Some? {
          projections := before;
          return SettleError(error.value);
        }
      }
      var settled := effect.(state := receipt.result, receipt := Some(receipt));
      effects := effects[row := settled];
      if receipt.result == Ambiguous {
        lanes := lanes[k := lanes[k].(state := Ambiguous)];
      } else {
        lanes := lanes - {k};
      }
      return Settled(settled);
    }

    method GetEffectByProviderMessage(m: MessageKey) returns (outcome: LookupOutcome)
      requires Valid()
      ensures outcome == Lookup(Contents(), m) && !outcome.LookupError?
    {
      hide Inv, ById;
      LookupIsExact(Contents(), m);
      if m !in messages {
        return NoMessage;
      }
      var row := ById(effects, messages[m].effectId);
      if row < 0 {
        assert false;
        return LookupError(ProviderEffectMissing);
      }
      var effect := effects[row];
      if || !Delivered(effect) || effect.identity.key.provider != m.provider || effect.identity.key.account != m.account
         || effect.identity.mailbox != messages[m].mailbox || effect.receipt.None?
         || effect.receipt.value.message != Some(m.message)
      {
        assert false;
        return LookupError(ProviderEffectConflict);
      }
      return Found(effect);
    }
  }
}
