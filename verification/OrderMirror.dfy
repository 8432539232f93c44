/** The order table and the service methods that change it. */
module OrderMirror {
  import opened Common
  import opened Utf16
  import opened CanonicalJson
  import opened OrderPayload
  import opened OrderProjection
  import opened OrderScrub
  import opened Sweeps
  import opened Wrappers

  /** A payload as the mapper sees it: a whole order, or an error that may still name one. */
  datatype Payload = Mapped(order: Order) | Malformed(wcOrderId: Option<Text>)

  datatype RemoteRead = Read(payload: Payload) | ReadFailed(category: string, retryable: bool)

  datatype EventTopic = Projected(topic: Topic) | Deleted | Unrelated

  datatype Outcome = Done | Failure(code: string, retryable: bool)

  predicate ValidPayload(p: Payload) {
    p.Mapped? ==> ValidCandidate(p.order)
  }

  predicate ValidRead(r: RemoteRead) {
    r.Read? ==> ValidPayload(r.payload)
  }

  function PayloadId(p: Payload): Option<Text> {
    if p.Mapped? then Some(p.order.wcOrderId) else p.wcOrderId
  }

  predicate ValidRows(rows: map<Text, Row>) {
    forall id | id in rows :: ValidRow(rows[id]) && rows[id].order.wcOrderId == id
  }

  function Find(rows: map<Text, Row>, id: Text): Option<Row> {
    if id in rows then Some(rows[id]) else None
  }

  function Put(rows: map<Text, Row>, id: Text, row: Option<Row>): map<Text, Row> {
    if row.Some? then rows[id := row.value] else rows
  }

  /** `reconcile`: read the live order and apply it as authoritative. */
  function ReconcileRows(rows: map<Text, Row>, id: Text, live: RemoteRead): (map<Text, Row>, Outcome)
    requires ValidRead(live)
  {
    match live
    case ReadFailed(category, retryable) => (rows, Failure(category, retryable))
    case Read(payload) =>
      if payload.Malformed? then (rows, Failure("malformed-reconciliation-payload", false))
      else if payload.order.wcOrderId != id then (rows, Failure("reconciliation-order-identity-mismatch", false))
      else (Put(rows, id, ApplyProjection(Find(rows, id), payload.order, true, Clear).0), Done)
  }

  /** `project`. */
  function ProjectRows(rows: map<Text, Row>, topic: EventTopic, payload: Payload, receivedAt: int, live: RemoteRead):
      (map<Text, Row>, Outcome)
    requires ValidRows(rows) && ValidPayload(payload) && ValidRead(live)
  {
    if topic.Unrelated? then (rows, Done)
    else if PayloadId(payload).None? then (rows, Failure("malformed-order-payload", false))
    else
      var id := PayloadId(payload).value;
      if topic.Deleted? then (Put(rows, id, ProjectDeletion(Find(rows, id), receivedAt)), Done)
      else if payload.Malformed? then ReconcileRows(rows, id, live)
      else
        var (row, decision) := ApplyProjection(Find(rows, id), payload.order, false, ModeOf(topic.topic));
        var applied := Put(rows, id, row);
        if decision.Reconcile? then ReconcileRows(applied, id, live) else (applied, Done)
  }

  lemma ReconcileKeepsOthers(rows: map<Text, Row>, id: Text, live: RemoteRead, other: Text)
    requires ValidRead(live) && other != id
    ensures Find(ReconcileRows(rows, id, live).0, other) == Find(rows, other)
  {
  }

  lemma ProjectKeepsOthers(rows: map<Text, Row>, topic: Topic, payload: Order, receivedAt: int, live: RemoteRead,
                           other: Text)
    requires ValidRows(rows) && ValidCandidate(payload) && ValidRead(live) && other != payload.wcOrderId
    ensures Find(ProjectRows(rows, Projected(topic), Mapped(payload), receivedAt, live).0, other) == Find(rows, other)
  {
    var id := payload.wcOrderId;
    var applied := Put(rows, id, ApplyProjection(Find(rows, id), payload, false, ModeOf(topic)).0);
    assert Find(applied, other) == Find(rows, other);
    ReconcileKeepsOthers(applied, id, live, other);
  }

  lemma ProjectIsProcess(w: World, rows: map<Text, Row>, topic: Topic, payload: Order, receivedAt: int)
    requires Inv(w) && ValidRows(rows) && payload in w.history && Find(rows, w.remote.wcOrderId) == w.row
    ensures var after := ProjectRows(rows, Projected(topic), Mapped(payload), receivedAt, Read(Mapped(w.remote)));
            Find(after.0, w.remote.wcOrderId) == ProcessEvent(w, topic, payload, []).row && after.1 == Done
  {
    StepKeepsInv(w, Deliver(topic, payload));
    ApplyKeepsRow(w.row, payload, false, ModeOf(topic));
  }

  /**
   What the service does with one event is what the protocol steps do to the row of its order: the convergence
   theorems about those steps are theorems about the service.
  */
  lemma ProjectFollowsSteps(w: World, rows: map<Text, Row>, topic: Topic, payload: Order, receivedAt: int)
    requires Inv(w) && ValidRows(rows) && payload in w.history && Find(rows, w.remote.wcOrderId) == w.row
    ensures var after := ProjectRows(rows, Projected(topic), Mapped(payload), receivedAt, Read(Mapped(w.remote)));
            && Find(after.0, w.remote.wcOrderId) == ProcessEvent(w, topic, payload, []).row && after.1 == Done
            && forall id | id != w.remote.wcOrderId :: Find(after.0, id) == Find(rows, id)
  {
    ProjectIsProcess(w, rows, topic, payload, receivedAt);
    forall id | id != w.remote.wcOrderId
      ensures Find(ProjectRows(rows, Projected(topic), Mapped(payload), receivedAt, Read(Mapped(w.remote))).0, id) ==
                Find(rows, id)
    {
      ProjectKeepsOthers(rows, topic, payload, receivedAt, Read(Mapped(w.remote)), id);
    }
  }

  class OrderTable {
    var rows: map<Text, Row>

    ghost predicate Valid()
      reads this
    {
      ValidRows(rows)
    }

    constructor ()
      ensures Valid() && rows == map[]
    {
      rows := map[];
    }

    /** One serializable transaction. */
    method ApplyCandidate(candidate: Order, authoritative: bool, mode: DeletionMode) returns (decision: Decision)
      requires Valid() && Storable(candidate)
      modifies this
      ensures Valid()
      ensures var (row, d) := ApplyProjection(old(Find(rows, candidate.wcOrderId)), candidate, authoritative, mode);
              decision == d && rows == Put(old(rows), candidate.wcOrderId, row)
    {
      var id := candidate.wcOrderId;
      ApplyKeepsRow(Find(rows, id), candidate, authoritative, mode);
      if id !in rows {
        rows := rows[id := Row(candidate, Fingerprint(candidate))];
        return Apply;
      }
      var existing := rows[id];
      var projection := candidate;
      if mode.Preserve? {
        projection := WithRemoteDeletedAt(candidate, existing.order.deletedAt);
      }
      var fingerprint := Fingerprint(projection);
      decision := DecideOrderProjection(existing.order.modifiedAt, existing.fingerprint, projection.modifiedAt,
                                        fingerprint, authoritative);
      if decision.Apply? {
        rows := rows[id := Row(projection, fingerprint)];
      } else {
        assert rows == Put(rows, id, Some(existing));
      }
    }

    method DeleteOrder(id: Text, receivedAt: int)
      requires Valid()
      modifies this
      ensures Valid()
      ensures rows == Put(old(rows), id, ProjectDeletion(old(Find(rows, id)), receivedAt))
      ensures rows.Keys == old(rows.Keys) && forall k | k in rows && k != id :: rows[k] == old(rows)[k]
      ensures id in rows ==>
                var stored := old(rows)[id].order.deletedAt;
                rows[id].order == old(rows)[id].order.(
                  deletedAt := if stored != None && receivedAt <= stored.value then stored else Some(receivedAt))
    {
      DeleteKeepsRow(Find(rows, id), receivedAt);
      if id in rows {
        var row := rows[id];
        if row.order.deletedAt.None? || receivedAt > row.order.deletedAt.value {
          var deleted := WithRemoteDeletedAt(row.order, Some(receivedAt));
          rows := rows[id := Row(deleted, Fingerprint(deleted))];
        }
      }
    }

    method ReconcileOrder(id: Text, live: RemoteRead) returns (outcome: Outcome)
      requires Valid() && ValidRead(live)
      modifies this
      ensures Valid()
      ensures (rows, outcome) == ReconcileRows(old(rows), id, live)
    {
      if live.ReadFailed? {
        return Failure(live.category, live.retryable);
      }
      if live.payload.Malformed? {
        return Failure("malformed-reconciliation-payload", false);
      }
      if live.payload.order.wcOrderId != id {
        return Failure("reconciliation-order-identity-mismatch", false);
      }
      var _ := ApplyCandidate(live.payload.order, true, Clear);
      return Done;
    }

    method ProjectEvent(topic: EventTopic, payload: Payload, receivedAt: int, live: RemoteRead)
      returns (outcome: Outcome)
      requires Valid() && ValidPayload(payload) && ValidRead(live)
      modifies this
      ensures Valid()
      ensures (rows, outcome) == ProjectRows(old(rows), topic, payload, receivedAt, live)
    {
      if topic.Unrelated? {
        return Done;
      }
      var id := PayloadId(payload);
      if id.None? {
        return Failure("malformed-order-payload", false);
      }
      if topic.Deleted? {
        DeleteOrder(id.value, receivedAt);
        return Done;
      }
      if payload.Malformed? {
        outcome := ReconcileOrder(id.value, live);
        return;
      }
      var decision := ApplyCandidate(payload.order, false, ModeOf(topic.topic));
      if decision.Reconcile? {
        outcome := ReconcileOrder(id.value, live);
      } else {
        outcome := Done;
      }
    }

    /** The order half of `scrubHistorical`: rows are taken in id order, and counted when they would change. */
    method ScrubHistorical(ids: seq<Text>, execute: bool) returns (changed: nat)
      requires Valid() && KeysInOrder(ids, rows)
      modifies this
      ensures Valid()
      ensures rows == if execute then SweepFirst(old(rows), Scrubbed, ids, |ids|) else old(rows)
      ensures changed == PendingFirst(old(rows), Scrubbed, ids, |ids|)
    {
      ScrubKeepsRows(rows, ids);
      rows, changed := Sweep(rows, Scrubbed, ids, execute);
    }
  }

  /** The table as it is read back. */
  ghost predicate RereadTable(back: map<Text, Row>, rows: map<Text, Row>) {
    back.Keys == rows.Keys && forall id | id in rows :: Reread(back[id], rows[id])
  }

  predicate Unlisted(row: Row) {
    !ListedOrder(row.order)
  }

  lemma ScrubbedRow(row: Row)
    requires ValidRow(row)
    ensures ValidRow(Scrubbed(row)) && Scrubbed(row).order.wcOrderId == row.order.wcOrderId
  {
    ScrubMinimises(row);
  }

  lemma ScrubbedRows(rows: map<Text, Row>)
    requires ValidRows(rows)
    ensures ValidRows(SweptRows(rows, Scrubbed))
  {
    var after := SweptRows(rows, Scrubbed);
    forall id | id in rows
      ensures ValidRow(after[id]) && after[id].order.wcOrderId == id
    {
      ScrubbedRow(rows[id]);
      assert after[id] == Scrubbed(rows[id]);
    }
  }

  lemma ScrubKeepsRows(rows: map<Text, Row>, ids: seq<Text>)
    requires ValidRows(rows) && KeysInOrder(ids, rows)
    ensures ValidRows(SweepFirst(rows, Scrubbed, ids, |ids|))
  {
    ScrubbedRows(rows);
    SweepAll(rows, Scrubbed, ids);
  }

  /** One row of a table that was scrubbed and read back. */
  lemma RereadRowSettled(row: Row, back: Row)
    requires ValidRow(row) && Reread(back, Scrubbed(row))
    ensures ValidRow(back) && back.order.wcOrderId == row.order.wcOrderId
    ensures Scrubbed(back).fingerprint == back.fingerprint && SameOrder(Scrubbed(back).order, back.order)
    ensures Scrubbed(back) != back <==> Unlisted(back)
  {
    ScrubMinimises(row);
    ScrubSettles(row, back);
  }

  /**
  After a full scrub and a reread every row is valid, and a second scrub would change no content and no fingerprint;
  it counts exactly the rows that the database returns in another form than the one a scrub writes.
  */
  lemma SecondScrubCounts(rows: map<Text, Row>, ids: seq<Text>, back: map<Text, Row>)
    requires ValidRows(rows) && KeysInOrder(ids, rows)
    requires RereadTable(back, SweepFirst(rows, Scrubbed, ids, |ids|))
    ensures ValidRows(back) && KeysInOrder(ids, back)
    ensures forall id | id in back :: Scrubbed(back[id]).fingerprint == back[id].fingerprint
    ensures PendingFirst(back, Scrubbed, ids, |ids|) == CountFirst(back, Unlisted, ids, |ids|)
  {
    SweepAll(rows, Scrubbed, ids);
    var after := SweptRows(rows, Scrubbed);
    forall id | id in rows
      ensures id in back && ValidRow(back[id]) && back[id].order.wcOrderId == id
      ensures Scrubbed(back[id]).fingerprint == back[id].fingerprint
      ensures Scrubbed(back[id]) != back[id] <==> Unlisted(back[id])
    {
      assert after[id] == Scrubbed(rows[id]) && Reread(back[id], after[id]);
      RereadRowSettled(rows[id], back[id]);
    }
    PendingIsCount(back, Scrubbed, Unlisted, ids, |ids|);
  }

  // What events and live reads do to a stored order

  predicate Marked(row: Row) {
    row.order.deletedAt.Some?
  }

  /** The live read returns the order. */
  predicate Readable(live: RemoteRead, id: Text) {
    live.Read? && live.payload.Mapped? && live.payload.order.wcOrderId == id
  }

  /** The live read returns the order, in a state at least as new as the row. */
  predicate Current(live: RemoteRead, row: Row) {
    Readable(live, row.order.wcOrderId) && live.payload.order.modifiedAt >= row.order.modifiedAt
  }

  /**
   What an event does to a stored order. A newer payload is stored: with the deletion mark as it was for a creation or
   an update, without one for a restoration. An older one changes nothing, and one as old as the row is left to the
   live read unless it is what the row holds already.
  */
  lemma EventMarks(rows: map<Text, Row>, topic: Topic, o: Order, receivedAt: int, live: RemoteRead)
    requires ValidRows(rows) && ValidCandidate(o) && ValidRead(live) && o.wcOrderId in rows
    ensures var (after, outcome) := ProjectRows(rows, Projected(topic), Mapped(o), receivedAt, live);
            var id, row := o.wcOrderId, rows[o.wcOrderId];
            && (o.modifiedAt > row.order.modifiedAt ==>
                  && outcome == Done && id in after
                  && after[id].order == o.(deletedAt := if topic == Restored then None else row.order.deletedAt))
            && (o.modifiedAt < row.order.modifiedAt ==> after == rows && outcome == Done)
            && (o.modifiedAt == row.order.modifiedAt ==>
                  (after == rows && outcome == Done) || (after, outcome) == ReconcileRows(rows, id, live))
  {
    var id := o.wcOrderId;
    assert o.modifiedAt <= rows[id].order.modifiedAt ==> Put(rows, id, Some(rows[id])) == rows;
  }

  /** What a live read does: it is applied only to the order it was made for, and clears the mark when it is. */
  lemma ReadMarks(rows: map<Text, Row>, id: Text, live: RemoteRead)
    requires ValidRows(rows) && ValidRead(live) && id in rows
    ensures var (after, outcome) := ReconcileRows(rows, id, live);
            && (outcome == Done <==> live.Read? && live.payload.Mapped? && live.payload.order.wcOrderId == id)
            && (outcome != Done ==> after == rows)
            && id in after && (forall k | k in after && k != id :: k in rows && after[k] == rows[k])
            && (outcome == Done && live.payload.order.modifiedAt > rows[id].order.modifiedAt ==>
                  after[id].order == live.payload.order)
            && (outcome == Done && live.payload.order.modifiedAt == rows[id].order.modifiedAt ==>
                  after[id].order.deletedAt == None && SameOrder(after[id].order, live.payload.order))
            && (outcome == Done && live.payload.order.modifiedAt < rows[id].order.modifiedAt ==> after == rows)
  {
    if Readable(live, id) {
      var o := live.payload.order;
      FingerprintIff(rows[id].order, o);
      SameOrderReflexive(o);
      assert o.modifiedAt < rows[id].order.modifiedAt ==> Put(rows, id, Some(rows[id])) == rows;
    }
  }

  /** Where the other events lead, and the answers to what cannot be used. */
  lemma EventFlow(rows: map<Text, Row>, topic: EventTopic, payload: Payload, receivedAt: int, live: RemoteRead)
    requires ValidRows(rows) && ValidPayload(payload) && ValidRead(live)
    ensures var (after, outcome) := ProjectRows(rows, topic, payload, receivedAt, live);
            && (topic == Unrelated ==> after == rows && outcome == Done)
            && (topic != Unrelated && payload == Malformed(None) ==>
                  after == rows && outcome == Failure("malformed-order-payload", false))
            && (topic.Projected? && payload.Malformed? && payload.wcOrderId != None ==>
                  (after, outcome) == ReconcileRows(rows, payload.wcOrderId.value, live))
            && (topic == Deleted && payload != Malformed(None) ==>
                  && outcome == Done && after.Keys == rows.Keys
                  && var id := if payload.Mapped? then payload.order.wcOrderId else payload.wcOrderId.value;
                     && (forall k | k in rows && k != id :: after[k] == rows[k])
                     && (id in rows ==> Marked(after[id]) && after[id].order.deletedAt.value >= receivedAt))
  {
    if topic == Deleted && PayloadId(payload).Some? {
      DeleteKeepsRow(Find(rows, PayloadId(payload).value), receivedAt);
    }
  }

  lemma ReadFlow(rows: map<Text, Row>, id: Text, live: RemoteRead)
    requires ValidRows(rows) && ValidRead(live)
    ensures var (after, outcome) := ReconcileRows(rows, id, live);
            && (live.ReadFailed? ==> (after, outcome) == (rows, Failure(live.category, live.retryable)))
            && (live.Read? && live.payload.Malformed? ==>
                  (after, outcome) == (rows, Failure("malformed-reconciliation-payload", false)))
            && (live.Read? && live.payload.Mapped? && live.payload.order.wcOrderId != id ==>
                  (after, outcome) == (rows, Failure("reconciliation-order-identity-mismatch", false)))
            && (Readable(live, id) ==> outcome == Done)
  {
  }

  // A deletion and a restoration in either order

  function Restoring(rows: map<Text, Row>, restored: Order, live: RemoteRead): (map<Text, Row>, Outcome)
    requires ValidRows(rows) && ValidCandidate(restored) && ValidRead(live)
  {
    ProjectRows(rows, Projected(Restored), Mapped(restored), 0, live)
  }

  function Deleting(rows: map<Text, Row>, id: Text, receivedAt: int, live: RemoteRead): map<Text, Row>
    requires ValidRows(rows) && ValidRead(live)
  {
    ProjectRows(rows, Deleted, Malformed(Some(id)), receivedAt, live).0
  }

  lemma DeletingMarks(rows: map<Text, Row>, id: Text, receivedAt: int, live: RemoteRead)
    requires ValidRows(rows) && ValidRead(live) && id in rows
    ensures var after := Deleting(rows, id, receivedAt, live);
            && ValidRows(after) && id in after && after == rows[id := after[id]] && Marked(after[id])
            && after[id].order.modifiedAt == rows[id].order.modifiedAt
  {
    DeleteKeepsRow(Find(rows, id), receivedAt);
    var after := Deleting(rows, id, receivedAt, live);
    assert after == rows[id := after[id]];
  }

  /** A marked row never has the fingerprint of an unmarked order. */
  lemma MarkShows(row: Row, o: Order)
    requires ValidRow(row) && Marked(row) && ValidCandidate(o)
    ensures row.fingerprint != Fingerprint(o)
  {
    FingerprintIff(row.order, o);
  }

  lemma ReadingMarked(rows: map<Text, Row>, id: Text, live: RemoteRead)
    requires ValidRows(rows) && ValidRead(live) && id in rows && Marked(rows[id])
    ensures var (after, outcome) := ReconcileRows(rows, id, live);
            && id in after && (Current(live, rows[id]) ==> !Marked(after[id]))
            && (!Current(live, rows[id]) ==> after == rows) && (outcome.Failure? <==> !Readable(live, id))
  {
    if Readable(live, id) {
      MarkShows(rows[id], live.payload.order);
      assert !Current(live, rows[id]) ==> ReconcileRows(rows, id, live).0 == rows;
    }
  }

  /**
   Restoring a marked row: older payloads do nothing, newer ones restore, and equally old ones leave it to the live
   read.
  */
  lemma RestoringMarked(rows: map<Text, Row>, restored: Order, live: RemoteRead)
    requires ValidRows(rows) && ValidCandidate(restored) && ValidRead(live)
    requires restored.wcOrderId in rows && Marked(rows[restored.wcOrderId])
    ensures var (after, outcome) := Restoring(rows, restored, live);
            var row := rows[restored.wcOrderId];
            && restored.wcOrderId in after
            && (restored.modifiedAt > row.order.modifiedAt ==> !Marked(after[restored.wcOrderId]))
            && (restored.modifiedAt < row.order.modifiedAt ==> after == rows && outcome == Done)
            && (restored.modifiedAt == row.order.modifiedAt ==>
                  (after, outcome) == ReconcileRows(rows, restored.wcOrderId, live))
  {
    var id := restored.wcOrderId;
    MarkShows(rows[id], restored);
    assert restored.modifiedAt <= rows[id].order.modifiedAt ==> Put(rows, id, Some(rows[id])) == rows;
  }

  lemma AppliedRows(rows: map<Text, Row>, restored: Order)
    requires ValidRows(rows) && ValidCandidate(restored) && restored.wcOrderId in rows
    ensures var id := restored.wcOrderId;
            var applied := Put(rows, id, ApplyProjection(Find(rows, id), restored, false, Clear).0);
            && ValidRows(applied) && id in applied && applied == rows[id := applied[id]]
            && (restored.modifiedAt <= rows[id].order.modifiedAt ==> applied == rows)
  {
    var id := restored.wcOrderId;
    ApplyKeepsRow(Find(rows, id), restored, false, Clear);
    if restored.modifiedAt <= rows[id].order.modifiedAt {
      StaleChangesNothing(rows[id], restored, Clear);
    }
    var applied := Put(rows, id, ApplyProjection(Find(rows, id), restored, false, Clear).0);
    assert applied == rows[id := applied[id]];
  }

  lemma RestoringKeepsRows(rows: map<Text, Row>, restored: Order, live: RemoteRead)
    requires ValidRows(rows) && ValidCandidate(restored) && ValidRead(live) && restored.wcOrderId in rows
    ensures var id := restored.wcOrderId;
            var after := Restoring(rows, restored, live).0;
            && ValidRows(after) && id in after && after == rows[id := after[id]]
            && (restored.modifiedAt <= rows[id].order.modifiedAt && !Current(live, rows[id]) ==> after == rows)
            && (restored.modifiedAt < rows[id].order.modifiedAt ==> after == rows)
  {
    var id := restored.wcOrderId;
    AppliedRows(rows, restored);
    var applied := Put(rows, id, ApplyProjection(Find(rows, id), restored, false, Clear).0);
    ReadingKeepsRows(applied, id, live);
  }

  lemma ReadingKeepsRows(rows: map<Text, Row>, id: Text, live: RemoteRead)
    requires ValidRows(rows) && ValidRead(live) && id in rows
    ensures var after := ReconcileRows(rows, id, live).0;
            && ValidRows(after) && id in after && after == rows[id := after[id]]
            && (!Current(live, rows[id]) ==> after == rows)
  {
    if Readable(live, id) {
      ApplyKeepsRow(Find(rows, id), live.payload.order, true, Clear);
      var after := ReconcileRows(rows, id, live).0;
      assert after == rows[id := after[id]];
      assert !Current(live, rows[id]) ==> after == rows;
    }
  }

  /**
   A deletion and a restoration of a stored order give the same rows in either order exactly when the restoration's
   payload is older than the row, or as old as it while the live read it asks for returns nothing as new as the row.
   Otherwise the order is marked deleted exactly when the deletion comes last. When the payload is as old as the row and
   the live read does not return the order, the deletion stays in either order, and restoring after it ends in a
   failure.
  */
  lemma DeleteRestoreCommuteIff(rows: map<Text, Row>, receivedAt: int, restored: Order, live: RemoteRead)
    requires ValidRows(rows) && ValidCandidate(restored) && ValidRead(live) && restored.wcOrderId in rows
    ensures var id, row := restored.wcOrderId, rows[restored.wcOrderId];
            && ValidRows(Deleting(rows, id, receivedAt, live)) && ValidRows(Restoring(rows, restored, live).0)
            && var deletedFirst := Restoring(Deleting(rows, id, receivedAt, live), restored, live);
               var restoredFirst := Deleting(Restoring(rows, restored, live).0, id, receivedAt, live);
               && id in deletedFirst.0 && id in restoredFirst
               && (deletedFirst.0 == restoredFirst <==>
                     restored.modifiedAt < row.order.modifiedAt
                     || (restored.modifiedAt == row.order.modifiedAt && !Current(live, row)))
               && (deletedFirst.0 != restoredFirst ==> !Marked(deletedFirst.0[id])) && Marked(restoredFirst[id])
               && (restored.modifiedAt == row.order.modifiedAt ==> (deletedFirst.1.Failure? <==> !Readable(live, id)))
  {
    var id, row := restored.wcOrderId, rows[restored.wcOrderId];
    DeletingMarks(rows, id, receivedAt, live);
    RestoringKeepsRows(rows, restored, live);
    DeletingMarks(Restoring(rows, restored, live).0, id, receivedAt, live);
    var deleted := Deleting(rows, id, receivedAt, live);
    assert Current(live, deleted[id]) == Current(live, row);
    RestoringMarked(deleted, restored, live);
    ReadingMarked(deleted, id, live);
  }
}
