/** Outbound mail delivery: the tables, what each mutation promises, and the laws of whole runs.

    The tables of one workspace. Effects are listed in insertion order, which is the order of
    the created-at index because the clock never goes back. A mutation that throws leaves the
    tables as they were. */
module MailOutboundModel {
  import opened Base

  const MAX_ATTEMPTS := 64

  datatype LaneKey = LaneKey(thread: Id, provider: Id, account: Id)

  /** The fields compared when two records are said to describe the same delivery attempt. */
  datatype Identity = Identity(id: Id, key: LaneKey, handle: Id, mailbox: Id, attempt: int, fingerprint: Id,
    rfcMessage: Id)

  datatype DeliveryState = Reserved | Sent | Ambiguous | Failed | Reconciled

  datatype Receipt = Receipt(identity: Identity, providerThread: Option<Id>, message: Option<Id>,
    result: DeliveryState, detail: Id)

  datatype Effect = Effect(identity: Identity, reservedAt: Time, state: DeliveryState, receipt: Option<Receipt>)

  datatype Lane = Lane(mailbox: Id, effectId: Id, state: DeliveryState)

  datatype Projection = Projection(key: LaneKey, mailbox: Id, providerThread: Id, rootMessage: Id, rootRfc: Option<Id>,
    fingerprint: Id, detail: Id)

  datatype MessageKey = MessageKey(provider: Id, account: Id, message: Id)

  datatype Message = Message(mailbox: Id, effectId: Id)

  datatype Tables = Tables(
    threads: map<Id, Id>,  // thread ID to handle
    effects: seq<Effect>,
    lanes: map<LaneKey, Lane>,
    projections: map<LaneKey, Projection>,
    messages: map<MessageKey, Message>)

  const EMPTY := Tables(map[], [], map[], map[], map[])

  /** What the digest of a retry is taken over; the digest yields the retry's ID and Message-ID. */
  datatype RetrySeed = RetrySeed(priorId: Id, key: LaneKey, mailbox: Id, fingerprint: Id, attempt: int)

  type Digest = RetrySeed -> (Id, Id)

  datatype ErrorCode =
    | NewEffectInvalid | ThreadNotFound | EffectThreadConflict | RetryAttemptInvalid
    | LaneEffectMissing | LaneRowConflict | SuccessProjectionMissing | RetryStateInvalid | RetryIdentityConsumed
    | EffectInvalid | ReceiptInvalid | ReceiptEffectConflict | ProjectionSettlementConflict | ProjectionEffectConflict
    | EffectNotFound | EffectIdentityConflict | TerminalSettlementConflict
    | LaneConflict | LaneDestinationConflict | ProjectionAncestryConflict
    | ProviderMessageConflict | EffectProviderMessageConflict
    | ProviderEffectMissing | ProviderEffectConflict

  datatype ReserveOutcome =
    | Reservation(effect: Effect)
    | Replay(effect: Effect)
    | Conflict(effect: Effect)
    | Blocked(effect: Effect)
    | ReserveError(code: ErrorCode)

  datatype SettleOutcome = Settled(effect: Effect) | Duplicate(effect: Effect) | SettleError(code: ErrorCode)

  datatype LookupOutcome = NoMessage | Found(effect: Effect) | LookupError(code: ErrorCode)

  predicate InFlight(e: Effect) { e.state == Reserved || e.state == Ambiguous }

  predicate Successful(state: DeliveryState) { state == Sent || state == Reconciled }

  predicate Delivered(e: Effect) { Successful(e.state) }

  predicate Terminal(e: Effect) { !InFlight(e) }

  predicate ReceiptAdmitted(r: Receipt) {
    && 1 <= r.identity.attempt
    && r.result != Reserved
    && (Successful(r.result) ==> r.providerThread.Some? && r.message.Some?)
  }

  predicate Admitted(e: Effect) {
    && 1 <= e.identity.attempt <= MAX_ATTEMPTS
    && (e.state == Reserved <==> e.receipt == None)
    && (e.receipt.Some? ==>
          && ReceiptAdmitted(e.receipt.value)
          && e.receipt.value.result == e.state
          && e.receipt.value.identity == e.identity)
  }

  predicate ProjectionMatches(p: Projection, e: Effect) {
    p.key == e.identity.key && p.mailbox == e.identity.mailbox && p.fingerprint == e.identity.fingerprint
  }

  function LaneOf(e: Effect): Lane { Lane(e.identity.mailbox, e.identity.id, e.state) }

  function MessageKeyOf(r: Receipt): MessageKey
    requires r.message.Some?
  {
    MessageKey(r.identity.key.provider, r.identity.key.account, r.message.value)
  }

  function MessageOf(e: Effect): Message { Message(e.identity.mailbox, e.identity.id) }

  // ---------------------------------------------------------------- index reads

  /** The row found under an effect ID, or -1. */
  function ById(s: seq<Effect>, id: Id): (r: int)
    ensures -1 <= r < |s|
    ensures r >= 0 ==> s[r].identity.id == id
    ensures forall j :: r < j < |s| ==> s[j].identity.id != id
  {
    if s == [] then -1
    else if s[|s| - 1].identity.id == id then |s| - 1
    else ById(s[..|s| - 1], id)
  }

  /** The newest row of a lane key, or -1. */
  function NewestRow(s: seq<Effect>, k: LaneKey): (r: int)
    ensures -1 <= r < |s|
    ensures r >= 0 ==> s[r].identity.key == k
    ensures forall j :: r < j < |s| ==> s[j].identity.key != k
  {
    if s == [] then -1
    else if s[|s| - 1].identity.key == k then |s| - 1
    else NewestRow(s[..|s| - 1], k)
  }

  predicate SameMaterial(e: Effect, k: LaneKey, f: Id) { e.identity.key == k && e.identity.fingerprint == f }

  /** The row with the highest attempt number for one content on one lane key (the newest of
      equals), or -1. */
  function HighestAttempt(s: seq<Effect>, k: LaneKey, f: Id): (r: int)
    ensures -1 <= r < |s|
    ensures r >= 0 ==> SameMaterial(s[r], k, f)
    ensures forall j :: 0 <= j < |s| && SameMaterial(s[j], k, f) ==>
              r >= 0 && s[j].identity.attempt <= s[r].identity.attempt
    ensures forall j :: r < j < |s| && r >= 0 && SameMaterial(s[j], k, f) ==>
              s[j].identity.attempt < s[r].identity.attempt
  {
    if s == [] then -1
    else
      var r := HighestAttempt(s[..|s| - 1], k, f);
      var e := s[|s| - 1];
      if SameMaterial(e, k, f) && (r < 0 || s[r].identity.attempt <= e.identity.attempt) then |s| - 1 else r
  }

  /** How many attempts one content has had on one lane key. */
  function Attempts(s: seq<Effect>, k: LaneKey, f: Id): nat {
    if s == [] then 0
    else Attempts(s[..|s| - 1], k, f) + (if SameMaterial(s[|s| - 1], k, f) then 1 else 0)
  }

  /** The newest delivered row of a lane key, or -1. */
  function LastDelivered(s: seq<Effect>, k: LaneKey): (r: int)
    ensures -1 <= r < |s|
    ensures r >= 0 ==> s[r].identity.key == k && Delivered(s[r])
    ensures forall j :: r < j < |s| && s[j].identity.key == k ==> !Delivered(s[j])
  {
    if s == [] then -1
    else if s[|s| - 1].identity.key == k && Delivered(s[|s| - 1]) then |s| - 1
    else LastDelivered(s[..|s| - 1], k)
  }

  // ---------------------------------------------------------------- what holds between mutations

  ghost predicate DistinctIds(s: seq<Effect>) {
    forall i, j :: 0 <= i < j < |s| ==> s[i].identity.id != s[j].identity.id
  }

  ghost predicate AllAdmitted(s: seq<Effect>) { forall i :: 0 <= i < |s| ==> Admitted(s[i]) }

  /** Only the newest effect of a lane key can still be undecided. */
  ghost predicate OlderSettled(s: seq<Effect>) {
    forall i, j :: 0 <= i < j < |s| && s[i].identity.key == s[j].identity.key ==> Terminal(s[i])
  }

  ghost predicate OneMailbox(s: seq<Effect>) {
    forall i, j :: 0 <= i < j < |s| && s[i].identity.key == s[j].identity.key ==>
      s[i].identity.mailbox == s[j].identity.mailbox
  }

  /** The attempts of one content are numbered 1, 2, 3, ... in creation order. */
  ghost predicate AttemptsNumbered(s: seq<Effect>) {
    forall i :: 0 <= i < |s| ==>
      s[i].identity.attempt == 1 + Attempts(s[..i], s[i].identity.key, s[i].identity.fingerprint)
  }

  /** Between a delivery and any later effect with the same content lies a delivery of another content. */
  ghost predicate ContentAlternates(s: seq<Effect>) {
    forall i, j :: 0 <= i < j < |s| && Delivered(s[i])
      && SameMaterial(s[j], s[i].identity.key, s[i].identity.fingerprint)
      ==> exists m :: i < m < j && OtherDelivery(s[m], s[i])
  }

  predicate OtherDelivery(later: Effect, earlier: Effect) {
    Delivered(later) && later.identity.key == earlier.identity.key
      && later.identity.fingerprint != earlier.identity.fingerprint
  }

  /** A lane exists exactly for the undecided effect of its key, and mirrors it. */
  ghost predicate LanesAgree(s: seq<Effect>, lanes: map<LaneKey, Lane>) {
    && (forall i :: 0 <= i < |s| && InFlight(s[i]) ==>
      s[i].identity.key in lanes && lanes[s[i].identity.key] == LaneOf(s[i]))
    && (forall k :: k in lanes ==> NewestRow(s, k) >= 0 && InFlight(s[NewestRow(s, k)]))
  }

  /** A projection exists exactly for the lane keys with a delivery, and carries the last one's content. */
  ghost predicate ProjectionsAgree(s: seq<Effect>, projections: map<LaneKey, Projection>) {
    && (forall k :: k in projections ==>
      LastDelivered(s, k) >= 0 && ProjectionMatches(projections[k], s[LastDelivered(s, k)]))
    && (forall i :: 0 <= i < |s| && Delivered(s[i]) ==> s[i].identity.key in projections)
  }

  /** Message rows and delivered effects correspond one to one. */
  ghost predicate MessagesAgree(s: seq<Effect>, messages: map<MessageKey, Message>) {
    && (forall i :: 0 <= i < |s| && Delivered(s[i]) && Admitted(s[i]) ==>
          && MessageKeyOf(s[i].receipt.value) in messages
          && messages[MessageKeyOf(s[i].receipt.value)] == MessageOf(s[i]))
    && (forall m :: m in messages ==> NamesDelivered(s, m, messages[m]))
  }

  ghost predicate NamesDelivered(s: seq<Effect>, m: MessageKey, row: Message) {
    var i := ById(s, row.effectId);
    i >= 0 && Delivered(s[i]) && Admitted(s[i]) && MessageKeyOf(s[i].receipt.value) == m
  }

  /** What holds of the effect rows alone. */
  ghost predicate RowsInv(s: seq<Effect>) {
    && DistinctIds(s) && AllAdmitted(s)
    && OlderSettled(s) && OneMailbox(s)
    && AttemptsNumbered(s) && ContentAlternates(s)
  }

  ghost predicate Inv(t: Tables) {
    && RowsInv(t.effects)
    && LanesAgree(t.effects, t.lanes)
    && ProjectionsAgree(t.effects, t.projections)
    && MessagesAgree(t.effects, t.messages)
  }

  // ---------------------------------------------------------------- the mutations, over full tables

  /** The request as the attempt it becomes when the content was tried `prior` times before. */
  function AttemptFor(q: Effect, prior: nat, digest: Digest): Effect {
    if prior == 0 then q
    else
      var seed := RetrySeed(q.identity.id, q.identity.key, q.identity.mailbox, q.identity.fingerprint, prior + 1);
      var (id, rfc) := digest(seed);
      q.(identity := q.identity.(id := id, attempt := prior + 1, rfcMessage := rfc), state := Reserved, receipt := None)
  }

  function WithReservation(t: Tables, e: Effect): Tables {
    t.(effects := t.effects + [e], lanes := t.lanes[e.identity.key := LaneOf(e)])
  }

  /** Reserving a delivery, decided from the whole history of its lane key. */
  function Reserve(t: Tables, q: Effect, digest: Digest): (Tables, ReserveOutcome) {
    var k := q.identity.key;
    if !Admitted(q) || q.state != Reserved || q.identity.attempt != 1 then (t, ReserveError(NewEffectInvalid))
    else if k.thread !in t.threads then (t, ReserveError(ThreadNotFound))
    else if t.threads[k.thread] != q.identity.handle then (t, ReserveError(EffectThreadConflict))
    else
      var newest := NewestRow(t.effects, k);
      if newest >= 0 && t.effects[newest].identity.mailbox != q.identity.mailbox then (t, Conflict(t.effects[newest]))
      else if newest >= 0 && InFlight(t.effects[newest]) then (t, Blocked(t.effects[newest]))
      else ReserveContent(t, q, digest)
  }

  /** Reserving on a free lane: the content decides. */
  function ReserveContent(t: Tables, q: Effect, digest: Digest): (Tables, ReserveOutcome) {
    var k, f := q.identity.key, q.identity.fingerprint;
    var last := LastDelivered(t.effects, k);
    if last >= 0 && t.effects[last].identity.fingerprint == f then (t, Replay(t.effects[last]))
    else
      var prior := Attempts(t.effects, k, f);
      if prior >= MAX_ATTEMPTS then (t, ReserveError(RetryAttemptInvalid))
      else
        var e := AttemptFor(q, prior, digest);
        var clash := ById(t.effects, e.identity.id);
        if clash >= 0 then (t, Conflict(t.effects[clash]))
        else (WithReservation(t, e), Reservation(e))
  }

  predicate AncestryKept(projections: map<LaneKey, Projection>, p: Projection) {
    p.key in projections ==>
      var prior := projections[p.key];
      prior.mailbox == p.mailbox && prior.providerThread == p.providerThread
      && prior.rootMessage == p.rootMessage && prior.rootRfc == p.rootRfc
  }

  /** The tables once row i has become `settled`. */
  function WithSettlement(t: Tables, i: nat, settled: Effect, projection: Option<Projection>): Tables
    requires i < |t.effects| && Admitted(settled)
  {
    var k := settled.identity.key;
    Tables(
      t.threads,
      t.effects[i := settled],
      if settled.state == Ambiguous then t.lanes[k := LaneOf(settled)] else t.lanes - {k},
      if projection.Some? then t.projections[projection.value.key := projection.value] else t.projections,
      if Delivered(settled) then t.messages[MessageKeyOf(settled.receipt.value) := MessageOf(settled)] else t.messages)
  }

  /** Settling an attempt: what is accepted, and what the tables become. */
  function Settle(t: Tables, effect: Effect, receipt: Receipt,
          projection: Option<Projection>): (Tables, SettleOutcome) {
    if !Admitted(effect) then (t, SettleError(EffectInvalid))
    else if !ReceiptAdmitted(receipt) then (t, SettleError(ReceiptInvalid))
    else if receipt.identity != effect.identity then (t, SettleError(ReceiptEffectConflict))
    else if Successful(receipt.result) != projection.Some? then (t, SettleError(ProjectionSettlementConflict))
    else if projection.Some? && !ProjectionMatches(projection.value, effect) then
      (t, SettleError(ProjectionEffectConflict))
    else
      var i := ById(t.effects, effect.identity.id);
      if i < 0 then (t, SettleError(EffectNotFound))
      else if t.effects[i].identity != effect.identity then (t, SettleError(EffectIdentityConflict))
      else if t.effects[i].receipt == Some(receipt) then (t, Duplicate(t.effects[i]))
      else if Terminal(t.effects[i]) then (t, SettleError(TerminalSettlementConflict))
      else SettleUndecided(t, i, effect, receipt, projection)
  }

  /** Settling row i, whose attempt is still undecided. */
  function SettleUndecided(t: Tables, i: nat, effect: Effect, receipt: Receipt,
          projection: Option<Projection>): (Tables, SettleOutcome)
    requires i < |t.effects| && Admitted(effect) && ReceiptAdmitted(receipt) && receipt.identity == effect.identity
  {
    if projection.Some? && !AncestryKept(t.projections, projection.value) then
      (t, SettleError(ProjectionAncestryConflict))
    else if Successful(receipt.result) && MessageKeyOf(receipt) in t.messages then
      (t, SettleError(ProviderMessageConflict))
    else
      var settled := effect.(state := receipt.result, receipt := Some(receipt));
      (WithSettlement(t, i, settled, projection), Settled(settled))
  }

  // ---------------------------------------------------------------- each mutation keeps the invariant

  lemma {:induction false} AttemptsOfEqualIdentities(a: seq<Effect>, b: seq<Effect>, k: LaneKey, f: Id)
    requires |a| == |b|
    requires forall i :: 0 <= i < |a| ==> a[i].identity == b[i].identity
    ensures Attempts(a, k, f) == Attempts(b, k, f)
  {
    if a != [] {
      AttemptsOfEqualIdentities(a[..|a| - 1], b[..|b| - 1], k, f);
    }
  }

  lemma NumberedPrefix(s: seq<Effect>, n: nat)
    requires AttemptsNumbered(s) && n <= |s|
    ensures AttemptsNumbered(s[..n])
  {
    forall i | 0 <= i < n
      ensures s[i].identity.attempt == 1 + Attempts(s[..n][..i], s[i].identity.key, s[i].identity.fingerprint)
    {
      assert s[..n][..i] == s[..i];
    }
  }

  lemma NumberedLast(s: seq<Effect>)
    requires AttemptsNumbered(s) && s != []
    ensures var e := s[|s| - 1].identity; e.attempt == 1 + Attempts(s[..|s| - 1], e.key, e.fingerprint)
  {
  }

  /** The index probe for the highest attempt finds how often the content was tried. */
  lemma {:induction false} HighestAttemptIsCount(s: seq<Effect>, k: LaneKey, f: Id)
    requires AttemptsNumbered(s)
    ensures HighestAttempt(s, k, f) < 0 <==> Attempts(s, k, f) == 0
    ensures HighestAttempt(s, k, f) >= 0 ==> s[HighestAttempt(s, k, f)].identity.attempt == Attempts(s, k, f)
    ensures forall j :: HighestAttempt(s, k, f) < j < |s| ==> !SameMaterial(s[j], k, f)
  {
    hide AttemptsNumbered;
    if s != [] {
      var n := |s| - 1;
      NumberedPrefix(s, n);
      NumberedLast(s);
      HighestAttemptIsCount(s[..n], k, f);
    }
  }

  lemma AppendNumbered(s: seq<Effect>, e: Effect)
    requires AttemptsNumbered(s)
    requires e.identity.attempt == 1 + Attempts(s, e.identity.key, e.identity.fingerprint)
    ensures AttemptsNumbered(s + [e])
  {
    var s' := s + [e];
    assert s'[..|s|] == s;
    forall i | 0 <= i < |s'|
      ensures s'[i].identity.attempt == 1 + Attempts(s'[..i], s'[i].identity.key, s'[i].identity.fingerprint)
    {
      if i < |s| { assert s'[..i] == s[..i]; }
    }
  }

  lemma AppendAlternates(s: seq<Effect>, e: Effect)
    requires ContentAlternates(s)
    requires LastDelivered(s, e.identity.key) >= 0 ==>
               s[LastDelivered(s, e.identity.key)].identity.fingerprint != e.identity.fingerprint
    ensures ContentAlternates(s + [e])
  {
    var s' := s + [e];
    var last := LastDelivered(s, e.identity.key);
    forall i, j | 0 <= i < j < |s'| && Delivered(s'[i])
      && SameMaterial(s'[j], s'[i].identity.key, s'[i].identity.fingerprint)
      ensures exists m :: i < m < j && OtherDelivery(s'[m], s'[i])
    {
      if j < |s| {
        var m :| i < m < j && OtherDelivery(s[m], s[i]);
        assert OtherDelivery(s'[m], s'[i]);
      } else {
        assert i < last;
        assert OtherDelivery(s'[last], s'[i]);
      }
    }
  }

  lemma AppendReads(s: seq<Effect>, e: Effect)
    requires InFlight(e)
    ensures forall k: LaneKey :: NewestRow(s + [e], k) == if k == e.identity.key then |s| else NewestRow(s, k)
    ensures forall k: LaneKey :: LastDelivered(s + [e], k) == LastDelivered(s, k)
    ensures forall id: Id :: id != e.identity.id ==> ById(s + [e], id) == ById(s, id)
  {
    assert (s + [e])[..|s|] == s;
  }

  lemma AppendOrder(s: seq<Effect>, e: Effect)
    requires DistinctIds(s) && AllAdmitted(s) && OlderSettled(s) && OneMailbox(s)
    requires Admitted(e) && ById(s, e.identity.id) < 0
    requires NewestRow(s, e.identity.key) >= 0 ==>
               Terminal(s[NewestRow(s, e.identity.key)])
                 && s[NewestRow(s, e.identity.key)].identity.mailbox == e.identity.mailbox
    ensures DistinctIds(s + [e]) && AllAdmitted(s + [e]) && OlderSettled(s + [e]) && OneMailbox(s + [e])
  {
    var n := NewestRow(s, e.identity.key);
    forall i | 0 <= i < |s| && s[i].identity.key == e.identity.key
      ensures Terminal(s[i]) && s[i].identity.mailbox == e.identity.mailbox
    {
      assert i <= n;
    }
  }

  lemma AppendLanes(s: seq<Effect>, lanes: map<LaneKey, Lane>, e: Effect)
    requires LanesAgree(s, lanes) && InFlight(e)
    requires forall i :: 0 <= i < |s| && s[i].identity.key == e.identity.key ==> Terminal(s[i])
    ensures LanesAgree(s + [e], lanes[e.identity.key := LaneOf(e)])
  {
    hide NewestRow;
    AppendReads(s, e);
  }

  lemma AppendProjections(s: seq<Effect>, projections: map<LaneKey, Projection>, e: Effect)
    requires ProjectionsAgree(s, projections) && InFlight(e)
    ensures ProjectionsAgree(s + [e], projections)
  {
    hide LastDelivered;
    AppendReads(s, e);
  }

  lemma AppendMessages(s: seq<Effect>, messages: map<MessageKey, Message>, e: Effect)
    requires MessagesAgree(s, messages) && InFlight(e) && ById(s, e.identity.id) < 0
    ensures MessagesAgree(s + [e], messages)
  {
    hide ById;
    AppendReads(s, e);
    forall m | m in messages
      ensures NamesDelivered(s + [e], m, messages[m])
    {
      assert NamesDelivered(s, m, messages[m]);
    }
  }

  lemma ReservationKeepsInv(t: Tables, e: Effect)
    requires Inv(t)
    requires Admitted(e) && e.state == Reserved && ById(t.effects, e.identity.id) < 0
    requires NewestRow(t.effects, e.identity.key) >= 0 ==>
               var n := t.effects[NewestRow(t.effects, e.identity.key)];
               Terminal(n) && n.identity.mailbox == e.identity.mailbox
    requires LastDelivered(t.effects, e.identity.key) >= 0 ==>
               t.effects[LastDelivered(t.effects, e.identity.key)].identity.fingerprint != e.identity.fingerprint
    requires e.identity.attempt == 1 + Attempts(t.effects, e.identity.key, e.identity.fingerprint)
    ensures Inv(WithReservation(t, e))
  {
    AppendOrder(t.effects, e);
    AppendNumbered(t.effects, e);
    AppendAlternates(t.effects, e);
    AppendLanes(t.effects, t.lanes, e);
    AppendProjections(t.effects, t.projections, e);
    AppendMessages(t.effects, t.messages, e);
  }

  lemma ReserveKeepsInv(t: Tables, q: Effect, digest: Digest)
    requires Inv(t)
    ensures Inv(Reserve(t, q, digest).0)
  {
    hide Inv, ById, NewestRow, LastDelivered, Attempts;
    var out := Reserve(t, q, digest).1;
    if out.Reservation? {
      ReservationKeepsInv(t, out.effect);
    }
  }

  /** What a settlement may do to row i: it was undecided, keeps its identity, and brings its own receipt. */
  ghost predicate Settles(s: seq<Effect>, i: nat, settled: Effect) {
    i < |s| && InFlight(s[i]) && settled.identity == s[i].identity && Admitted(settled) && settled.state != Reserved
  }

  lemma SettledReads(s: seq<Effect>, i: nat, settled: Effect)
    requires Settles(s, i, settled) && OlderSettled(s)
    ensures forall k: LaneKey :: NewestRow(s[i := settled], k) == NewestRow(s, k)
    ensures NewestRow(s, settled.identity.key) == i
    ensures forall k: LaneKey :: LastDelivered(s[i := settled], k) ==
                                 if Delivered(settled) && k == settled.identity.key then i else LastDelivered(s, k)
    ensures forall id: Id :: ById(s[i := settled], id) == ById(s, id)
  {
    hide NewestRow, LastDelivered, ById;
    var s' := s[i := settled];
    forall k: LaneKey
      ensures NewestRow(s', k) == NewestRow(s, k)
      ensures LastDelivered(s', k) == if Delivered(settled) && k == settled.identity.key then i else LastDelivered(s, k)
    {
      assert forall j :: 0 <= j < |s| ==> s'[j].identity == s[j].identity;
    }
    forall id: Id ensures ById(s', id) == ById(s, id) {
      assert forall j :: 0 <= j < |s| ==> s'[j].identity == s[j].identity;
    }
  }

  lemma SettleOrder(s: seq<Effect>, i: nat, settled: Effect)
    requires DistinctIds(s) && AllAdmitted(s) && OlderSettled(s) && OneMailbox(s)
    requires Settles(s, i, settled)
    ensures DistinctIds(s[i := settled]) && AllAdmitted(s[i := settled])
    ensures OlderSettled(s[i := settled]) && OneMailbox(s[i := settled])
  {
  }

  lemma SettleNumbered(s: seq<Effect>, i: nat, settled: Effect)
    requires AttemptsNumbered(s) && Settles(s, i, settled)
    ensures AttemptsNumbered(s[i := settled])
  {
    var s' := s[i := settled];
    forall j | 0 <= j < |s'|
      ensures s'[j].identity.attempt == 1 + Attempts(s'[..j], s'[j].identity.key, s'[j].identity.fingerprint)
    {
      AttemptsOfEqualIdentities(s[..j], s'[..j], s[j].identity.key, s[j].identity.fingerprint);
    }
  }

  lemma SettleAlternates(s: seq<Effect>, i: nat, settled: Effect)
    requires ContentAlternates(s) && OlderSettled(s) && Settles(s, i, settled)
    ensures ContentAlternates(s[i := settled])
  {
    var s' := s[i := settled];
    forall a, b | 0 <= a < b < |s'| && Delivered(s'[a])
      && SameMaterial(s'[b], s'[a].identity.key, s'[a].identity.fingerprint)
      ensures exists m :: a < m < b && OtherDelivery(s'[m], s'[a])
    {
      assert a != i;
      assert SameMaterial(s[b], s[a].identity.key, s[a].identity.fingerprint);
      var m :| a < m < b && OtherDelivery(s[m], s[a]);
      assert OtherDelivery(s'[m], s'[a]);
    }
  }

  lemma SettleLanes(s: seq<Effect>, lanes: map<LaneKey, Lane>, i: nat, settled: Effect)
    requires LanesAgree(s, lanes) && OlderSettled(s) && Settles(s, i, settled)
    ensures var k := settled.identity.key;
            LanesAgree(s[i := settled], if settled.state == Ambiguous then lanes[k := LaneOf(settled)] else lanes - {k})
  {
    hide NewestRow;
    SettledReads(s, i, settled);
  }

  lemma SettleProjections(s: seq<Effect>, projections: map<LaneKey, Projection>, i: nat, settled: Effect,
          p: Option<Projection>)
    requires ProjectionsAgree(s, projections) && OlderSettled(s) && Settles(s, i, settled)
    requires p.Some? <==> Delivered(settled)
    requires p.Some? ==> ProjectionMatches(p.value, settled)
    ensures ProjectionsAgree(s[i := settled], if p.Some? then projections[p.value.key := p.value] else projections)
  {
    hide LastDelivered;
    SettledReads(s, i, settled);
  }

  lemma SettleKeepsNamed(s: seq<Effect>, i: nat, settled: Effect, m: MessageKey, row: Message)
    requires NamesDelivered(s, m, row) && OlderSettled(s) && Settles(s, i, settled)
    ensures NamesDelivered(s[i := settled], m, row)
  {
    hide ById, NewestRow, LastDelivered, OlderSettled;
    SettledReads(s, i, settled);
  }

  lemma SettleMessages(s: seq<Effect>, messages: map<MessageKey, Message>, i: nat, settled: Effect)
    requires MessagesAgree(s, messages) && DistinctIds(s) && OlderSettled(s) && Settles(s, i, settled)
    requires Delivered(settled) ==> MessageKeyOf(settled.receipt.value) !in messages
    ensures MessagesAgree(s[i := settled],
                          if Delivered(settled) then messages[MessageKeyOf(settled.receipt.value) := MessageOf(settled)]
                          else messages)
  {
    hide ById, NamesDelivered, OlderSettled, NewestRow, LastDelivered;
    forall m | m in messages
      ensures NamesDelivered(s[i := settled], m, messages[m])
    {
      SettleKeepsNamed(s, i, settled, m, messages[m]);
    }
    if Delivered(settled) { SettledIsNamed(s, i, settled); }
  }

  lemma SettledIsNamed(s: seq<Effect>, i: nat, settled: Effect)
    requires DistinctIds(s) && Settles(s, i, settled) && Delivered(settled)
    ensures NamesDelivered(s[i := settled], MessageKeyOf(settled.receipt.value), MessageOf(settled))
  {
    hide ById;
    var s' := s[i := settled];
    assert s'[i].identity.id == settled.identity.id;
    assert forall j :: 0 <= j < |s| ==> s'[j].identity == s[j].identity;
  }

  lemma SettlementKeepsInv(t: Tables, i: nat, settled: Effect, p: Option<Projection>)
    requires Inv(t) && Settles(t.effects, i, settled)
    requires p.Some? <==> Delivered(settled)
    requires p.Some? ==> ProjectionMatches(p.value, settled)
    requires Delivered(settled) ==> MessageKeyOf(settled.receipt.value) !in t.messages
    ensures Inv(WithSettlement(t, i, settled, p))
  {
    SettleOrder(t.effects, i, settled);
    SettleNumbered(t.effects, i, settled);
    SettleAlternates(t.effects, i, settled);
    SettleLanes(t.effects, t.lanes, i, settled);
    SettleProjections(t.effects, t.projections, i, settled, p);
    SettleMessages(t.effects, t.messages, i, settled);
  }

  lemma SettleKeepsInv(t: Tables, effect: Effect, receipt: Receipt, p: Option<Projection>)
    requires Inv(t)
    ensures Inv(Settle(t, effect, receipt, p).0)
  {
    var out := Settle(t, effect, receipt, p).1;
    if out.Settled? {
      hide Inv, ById;
      SettlementKeepsInv(t, ById(t.effects, effect.identity.id), out.effect, p);
    }
  }

  // ---------------------------------------------------------------- what the invariant says to a reader

  /** A lane is held exactly when one effect of its key is undecided, and by that effect. */
  lemma LaneMeansOneUndecided(t: Tables, k: LaneKey)
    requires Inv(t)
    ensures k in t.lanes <==>
              exists i :: 0 <= i < |t.effects| && t.effects[i].identity.key == k && InFlight(t.effects[i])
    ensures forall i :: 0 <= i < |t.effects| && t.effects[i].identity.key == k && InFlight(t.effects[i]) ==>
              t.lanes[k] == LaneOf(t.effects[i]) && i == NewestRow(t.effects, k)
    ensures k in t.lanes ==> ById(t.effects, t.lanes[k].effectId) == NewestRow(t.effects, k)
  {
    hide NewestRow, ById;
    if k in t.lanes {
      var n := NewestRow(t.effects, k);
      assert t.lanes[k] == LaneOf(t.effects[n]);
    }
  }

  ghost predicate HasAttempt(s: seq<Effect>, k: LaneKey, f: Id, a: int) {
    exists i :: 0 <= i < |s| && SameMaterial(s[i], k, f) && s[i].identity.attempt == a
  }

  lemma HasAttemptInPrefix(s: seq<Effect>, k: LaneKey, f: Id, a: int)
    requires s != []
    ensures HasAttempt(s, k, f, a) <==>
              HasAttempt(s[..|s| - 1], k, f, a) || (SameMaterial(s[|s| - 1], k, f) && s[|s| - 1].identity.attempt == a)
  {
    var n := |s| - 1;
    assert forall i :: 0 <= i < n ==> s[..n][i] == s[i];
    if HasAttempt(s, k, f, a) {
      var i :| 0 <= i < |s| && SameMaterial(s[i], k, f) && s[i].identity.attempt == a;
      if i < n { assert SameMaterial(s[..n][i], k, f); }
    }
  }

  lemma LastAdmitted(s: seq<Effect>)
    requires AllAdmitted(s) && s != []
    ensures AllAdmitted(s[..|s| - 1]) && s[|s| - 1].identity.attempt <= MAX_ATTEMPTS
  {
  }

  /** The attempts of one content are numbered exactly 1 to n, and n never passes 64. */
  lemma {:induction false} AttemptNumbersAreGapFree(s: seq<Effect>, k: LaneKey, f: Id)
    requires AttemptsNumbered(s) && AllAdmitted(s)
    ensures Attempts(s, k, f) <= MAX_ATTEMPTS
    ensures forall a :: HasAttempt(s, k, f, a) <==> 1 <= a <= Attempts(s, k, f)
  {
    if s == [] {
    } else {
      hide AttemptsNumbered, AllAdmitted, HasAttempt;
      NumberedPrefix(s, |s| - 1);
      NumberedLast(s);
      LastAdmitted(s);
      AttemptNumbersAreGapFree(s[..|s| - 1], k, f);
      forall a ensures HasAttempt(s, k, f, a) <==> 1 <= a <= Attempts(s, k, f) { HasAttemptInPrefix(s, k, f, a); }
    }
  }

  /** What the highest-attempt probe says about a free lane, in terms of the whole history. */
  lemma HighestAttemptOnFreeLane(s: seq<Effect>, lanes: map<LaneKey, Lane>, k: LaneKey, f: Id)
    requires AttemptsNumbered(s) && OneMailbox(s) && LanesAgree(s, lanes) && k !in lanes
    ensures var h, n := HighestAttempt(s, k, f), NewestRow(s, k);
            && (h < 0 <==> Attempts(s, k, f) == 0)
            && (h >= 0 ==> s[h].identity.attempt == Attempts(s, k, f) && Terminal(s[h]))
            && (h >= 0 ==> n >= 0 && s[h].identity.mailbox == s[n].identity.mailbox)
  {
    hide HighestAttempt, NewestRow, Attempts, AttemptsNumbered;
    HighestAttemptIsCount(s, k, f);
    assert HighestAttempt(s, k, f) <= NewestRow(s, k);
  }

  /** What the projection says about the whole history of a lane key. */
  lemma ProjectionIsLastDelivery(s: seq<Effect>, projections: map<LaneKey, Projection>, k: LaneKey, f: Id)
    requires AttemptsNumbered(s) && OneMailbox(s) && ContentAlternates(s) && ProjectionsAgree(s, projections)
    ensures var h, last := HighestAttempt(s, k, f), LastDelivered(s, k);
            && (last >= 0 <==> k in projections)
            && (last >= 0 ==> ProjectionMatches(projections[k], s[last]))
            && (h >= 0 && Delivered(s[h]) ==> last >= 0 && s[last].identity.mailbox == s[h].identity.mailbox)
            && (last >= 0 && s[last].identity.fingerprint == f ==> h == last)
  {
    hide HighestAttempt, LastDelivered, Attempts, AttemptsNumbered;
    HighestAttemptIsCount(s, k, f);
    var h, last := HighestAttempt(s, k, f), LastDelivered(s, k);
    assert h >= 0 && Delivered(s[h]) ==> h <= last;
  }

  /** The row a retry would reuse is never the retry itself. */
  lemma RetryIsNew(s: seq<Effect>, k: LaneKey, f: Id, i: nat)
    requires AttemptsNumbered(s) && i < |s| && SameMaterial(s[i], k, f)
    ensures s[i].identity.attempt <= Attempts(s, k, f)
  {
    hide HighestAttempt, Attempts, AttemptsNumbered;
    HighestAttemptIsCount(s, k, f);
  }

  /** Looking an effect up by the provider's message ID. */
  function Lookup(t: Tables, m: MessageKey): LookupOutcome {
    if m !in t.messages then NoMessage
    else
      var row := t.messages[m];
      var i := ById(t.effects, row.effectId);
      if i < 0 then LookupError(ProviderEffectMissing)
      else
        var e := t.effects[i];
        if || !Delivered(e) || e.identity.key.provider != m.provider || e.identity.key.account != m.account
           || e.identity.mailbox != row.mailbox || e.receipt.None? || e.receipt.value.message != Some(m.message)
        then LookupError(ProviderEffectConflict)
        else Found(e)
  }

  /** No message row names an effect that is still undecided. */
  lemma UndecidedHasNoMessage(t: Tables, id: Id)
    requires Inv(t)
    ensures var i := ById(t.effects, id);
            i >= 0 && InFlight(t.effects[i]) ==> forall m :: m in t.messages ==> t.messages[m].effectId != id
    ensures var i := ById(t.effects, id);
            i >= 0 ==> Admitted(t.effects[i])
  {
    hide OlderSettled, OneMailbox, AttemptsNumbered, ContentAlternates, LanesAgree, ProjectionsAgree, ById;
    forall m | m in t.messages && t.messages[m].effectId == id
      ensures Delivered(t.effects[ById(t.effects, id)])
    {
      assert NamesDelivered(t.effects, m, t.messages[m]);
    }
  }

  predicate DeliveredAs(e: Effect, m: MessageKey) {
    Delivered(e) && Admitted(e) && MessageKeyOf(e.receipt.value) == m
  }

  /** Message IDs and delivered effects are in bijection: the lookup never throws, and it finds the
      one effect delivered under the message ID, if there is one. */
  lemma LookupIsExact(t: Tables, m: MessageKey)
    requires Inv(t)
    ensures Lookup(t, m).NoMessage? || Lookup(t, m).Found?
    ensures Lookup(t, m).Found? ==> DeliveredAs(Lookup(t, m).effect, m) && Lookup(t, m).effect in t.effects
    ensures forall i :: 0 <= i < |t.effects| && DeliveredAs(t.effects[i], m) ==> Lookup(t, m) == Found(t.effects[i])
  {
    hide DistinctIds, AllAdmitted, OlderSettled, OneMailbox, AttemptsNumbered, ContentAlternates, LanesAgree;
    hide ProjectionsAgree, MessagesAgree, ById;
    MessageNamesItsEffect(t.effects, t.messages, m);
  }

  lemma MessageNamesItsEffect(s: seq<Effect>, messages: map<MessageKey, Message>, m: MessageKey)
    requires MessagesAgree(s, messages) && DistinctIds(s)
    ensures m in messages ==>
              var i := ById(s, messages[m].effectId);
              i >= 0 && DeliveredAs(s[i], m) && messages[m] == MessageOf(s[i])
    ensures forall i :: 0 <= i < |s| && DeliveredAs(s[i], m) ==> m in messages && i == ById(s, messages[m].effectId)
  {
    hide ById;
    assert m in messages ==> NamesDelivered(s, m, messages[m]);
  }

  // ---------------------------------------------------------------- whole runs

  datatype Event =
    | OpenThread(thread: Id, handle: Id)
    | ReserveEffect(request: Effect)
    | SettleEffect(effect: Effect, receipt: Receipt, projection: Option<Projection>)

  function Step(t: Tables, e: Event, digest: Digest): Tables {
    match e
    case OpenThread(thread, handle) =>
      if thread in t.threads || handle in t.threads.Values then t else t.(threads := t.threads[thread := handle])
    case ReserveEffect(q) => Reserve(t, q, digest).0
    case SettleEffect(effect, receipt, projection) => Settle(t, effect, receipt, projection).0
  }

  function Run(t: Tables, es: seq<Event>, digest: Digest): Tables
    decreases |es|
  {
    if es == [] then t else Run(Step(t, es[0], digest), es[1..], digest)
  }

  /** The content a step delivers on lane key k: at most one, and only a settlement that is accepted
      as new and reports success delivers. */
  function DeliveredBy(t: Tables, e: Event, k: LaneKey): seq<Id> {
    if e.SettleEffect? then
      var out := Settle(t, e.effect, e.receipt, e.projection).1;
      if out.Settled? && Delivered(out.effect) && out.effect.identity.key == k then [out.effect.identity.fingerprint]
      else []
    else []
  }

  /** Every content delivered on lane key k during a run, in order. */
  function Deliveries(t: Tables, es: seq<Event>, k: LaneKey, digest: Digest): seq<Id>
    decreases |es|
  {
    if es == [] then [] else DeliveredBy(t, es[0], k) + Deliveries(Step(t, es[0], digest), es[1..], k, digest)
  }

  /** The content delivered last on lane key k, as a sequence of at most one. */
  function LastContent(t: Tables, k: LaneKey): seq<Id> {
    var i := LastDelivered(t.effects, k);
    if i < 0 then [] else [t.effects[i].identity.fingerprint]
  }

  ghost predicate NeverTwiceInARow(fs: seq<Id>) { forall i :: 0 <= i < |fs| - 1 ==> fs[i] != fs[i + 1] }

  lemma StepKeepsInv(t: Tables, e: Event, digest: Digest)
    requires Inv(t)
    ensures Inv(Step(t, e, digest))
  {
    hide Reserve, Settle;
    match e
    case OpenThread(_, _) =>
    case ReserveEffect(q) => ReserveKeepsInv(t, q, digest);
    case SettleEffect(effect, receipt, p) => SettleKeepsInv(t, effect, receipt, p);
  }

  /** Every state of every run from the empty tables keeps the invariant. */
  lemma {:induction false} RunKeepsInv(t: Tables, es: seq<Event>, digest: Digest)
    requires Inv(t)
    ensures Inv(Run(t, es, digest))
    decreases |es|
  {
    if es != [] {
      StepKeepsInv(t, es[0], digest);
      RunKeepsInv(Step(t, es[0], digest), es[1..], digest);
    }
  }

  lemma NewestIsFresh(s: seq<Effect>, i: nat)
    requires ContentAlternates(s) && OlderSettled(s) && i < |s| && InFlight(s[i])
    ensures var p := LastDelivered(s, s[i].identity.key);
            p >= 0 ==> p < i && s[p].identity.fingerprint != s[i].identity.fingerprint
  {
    hide LastDelivered;
    var p := LastDelivered(s, s[i].identity.key);
  }

  /** One step: the content it delivers, if any, becomes the last content and differs from the one before. */
  lemma StepDelivers(t: Tables, e: Event, k: LaneKey, digest: Digest)
    requires Inv(t)
    ensures LastContent(Step(t, e, digest), k) ==
              if DeliveredBy(t, e, k) == [] then LastContent(t, k) else DeliveredBy(t, e, k)
    ensures NeverTwiceInARow(LastContent(t, k) + DeliveredBy(t, e, k))
  {
    hide DistinctIds, AllAdmitted, OlderSettled, OneMailbox, AttemptsNumbered, ContentAlternates, LanesAgree;
    hide ProjectionsAgree, MessagesAgree;
    hide LastDelivered, NewestRow, ById, Attempts;
    match e
    case OpenThread(_, _) =>
    case ReserveEffect(q) =>
      var out := Reserve(t, q, digest).1;
      if out.Reservation? { AppendReads(t.effects, out.effect); }
    case SettleEffect(effect, receipt, p) =>
      var out := Settle(t, effect, receipt, p).1;
      if out.Settled? {
        var i := ById(t.effects, effect.identity.id);
        SettledReads(t.effects, i, out.effect);
        NewestIsFresh(t.effects, i);
      }
  }

  lemma JoinNeverTwice(before: seq<Id>, now: seq<Id>, rest: seq<Id>)
    requires |before| <= 1 && |now| <= 1
    requires NeverTwiceInARow(before + now)
    requires NeverTwiceInARow((if now == [] then before else now) + rest)
    ensures NeverTwiceInARow(before + (now + rest))
  {
    var all := before + (now + rest);
    if now == [] {
      assert all == before + rest;
    } else {
      forall i | 0 <= i < |all| - 1 ensures all[i] != all[i + 1] {
        if i < |before| {
          assert (before + now)[i] == all[i] && (before + now)[i + 1] == all[i + 1];
        } else {
          assert (now + rest)[i - |before|] == all[i] && (now + rest)[i + 1 - |before|] == all[i + 1];
        }
      }
    }
  }

  /** At most one delivery between content changes: over any run, two successive deliveries on one
      (thread, provider, account) never carry the same content, not even across the start of the run. */
  lemma {:induction false} NeverDeliversTwiceInARow(t: Tables, es: seq<Event>, k: LaneKey, digest: Digest)
    requires Inv(t)
    ensures NeverTwiceInARow(LastContent(t, k) + Deliveries(t, es, k, digest))
    decreases |es|
  {
    hide Inv, Step, LastContent, DeliveredBy, NeverTwiceInARow;
    if es == [] {
      StartNeverTwice(t, k);
    } else {
      StepKeepsInv(t, es[0], digest);
      StepDelivers(t, es[0], k, digest);
      AtMostOneEach(t, es[0], k);
      NeverDeliversTwiceInARow(Step(t, es[0], digest), es[1..], k, digest);
      JoinNeverTwice(LastContent(t, k), DeliveredBy(t, es[0], k),
        Deliveries(Step(t, es[0], digest), es[1..], k, digest));
    }
  }

  lemma StartNeverTwice(t: Tables, k: LaneKey)
    ensures NeverTwiceInARow(LastContent(t, k) + [])
  {
  }

  lemma AtMostOneEach(t: Tables, e: Event, k: LaneKey)
    ensures |LastContent(t, k)| <= 1 && |DeliveredBy(t, e, k)| <= 1
  {
  }

  lemma StepKeepsTerminal(t: Tables, e: Event, i: nat, digest: Digest)
    requires i < |t.effects| && Terminal(t.effects[i])
    ensures i < |Step(t, e, digest).effects| && Step(t, e, digest).effects[i] == t.effects[i]
  {
    hide LastDelivered, NewestRow, ById, Attempts;
  }

  /** A settled effect is never changed again by any continuation of the run. */
  lemma {:induction false} TerminalEffectsAreFrozen(t: Tables, es: seq<Event>, i: nat, digest: Digest)
    requires i < |t.effects| && Terminal(t.effects[i])
    ensures i < |Run(t, es, digest).effects| && Run(t, es, digest).effects[i] == t.effects[i]
    decreases |es|
  {
    if es != [] {
      StepKeepsTerminal(t, es[0], i, digest);
      TerminalEffectsAreFrozen(Step(t, es[0], digest), es[1..], i, digest);
    }
  }

  lemma {:induction false} IdentitiesStay(t: Tables, es: seq<Event>, i: nat, digest: Digest)
    requires i < |t.effects|
    ensures i < |Run(t, es, digest).effects| && Run(t, es, digest).effects[i].identity == t.effects[i].identity
    decreases |es|
  {
    hide Step;
    if es != [] {
      StepKeepsIdentity(t, es[0], i, digest);
      IdentitiesStay(Step(t, es[0], digest), es[1..], i, digest);
    }
  }

  lemma StepKeepsIdentity(t: Tables, e: Event, i: nat, digest: Digest)
    requires i < |t.effects|
    ensures i < |Step(t, e, digest).effects| && Step(t, e, digest).effects[i].identity == t.effects[i].identity
  {
    hide LastDelivered, NewestRow, ById, Attempts;
  }

  /** The intervals in which effects hold a lane do not overlap: once another effect of its key is
      undecided, an effect is decided for ever. */
  lemma IntervalsDoNotOverlap(t: Tables, es: seq<Event>, more: seq<Event>, i: nat, j: nat, digest: Digest)
    requires Inv(t) && i < |t.effects|
    requires var t1 := Run(t, es, digest);
             j < |t1.effects| && j != i && t1.effects[j].identity.key == t.effects[i].identity.key
               && InFlight(t1.effects[j])
    requires InFlight(t.effects[i])
    ensures var t2 := Run(Run(t, es, digest), more, digest);
            i < |t2.effects| && !InFlight(t2.effects[i])
  {
    hide Inv, Run, InFlight;
    var t1 := Run(t, es, digest);
    RunKeepsInv(t, es, digest);
    IdentitiesStay(t, es, i, digest);
    LaneMeansOneUndecided(t1, t.effects[i].identity.key);
    TerminalEffectsAreFrozen(t1, more, i, digest);
  }
}
