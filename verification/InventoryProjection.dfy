/** The inventory projection service: webhooks, bootstrap pages, deletions and thresholds on the item table. */
module InventoryProjection {
  import opened Common
  import opened Wrappers
  import opened InventoryItems

  /** A mapped payload, or an error that may still name the item and its parent. */
  datatype Payload = Mapped(item: Item) | Malformed(id: Option<ItemId>, parent: Option<ItemId>)

  datatype Fetch = Fetched(payload: Payload) | NotFound | FetchFailed(category: string)

  /** The live read of an item, given the parent under which it is looked up. */
  type Remote = (Option<ItemId>, ItemId) -> Fetch

  datatype Topic = Created | Updated | Restored | Unrelated

  datatype Event = Event(id: EventId, topic: Topic, payload: Payload, receivedAt: int)

  datatype Outcome = Signals(signals: seq<Signal>) | Failure(code: string)

  predicate ValidPayload(p: Payload) {
    p.Mapped? ==> ValidItem(p.item)
  }

  ghost predicate ValidRemote(remote: Remote) {
    forall parent: Option<ItemId>, id: ItemId :: remote(parent, id).Fetched? ==>
      ValidPayload(remote(parent, id).payload)
  }

  function SignalsOf(signal: Option<Signal>): seq<Signal> {
    if signal.Some? then [signal.value] else []
  }

  /** The parent a reconciliation looks under: the supplied one, else the stored one. */
  function ParentFor(s: Inventory, id: ItemId, supplied: Option<ItemId>): Option<ItemId> {
    if supplied.Some? then supplied else if id in s.rows then s.rows[id].item.parent else None
  }

  /** `reconcile`: the live item is applied as authoritative, if it is the item asked for. */
  function ReconcileItem(s: Inventory, id: ItemId, supplied: Option<ItemId>, source: Source, remote: Remote):
      (Inventory, Outcome)
  {
    var parent := ParentFor(s, id, supplied);
    match remote(parent, id)
    case NotFound => (s, Failure("woocommerce-not-found"))
    case FetchFailed(category) => (s, Failure("woocommerce-" + category))
    case Fetched(payload) =>
      if payload.Malformed? then (s, Failure("malformed-inventory-reconciliation-payload"))
      else if payload.item.id != id || (parent.Some? && payload.item.parent != parent) then
        (s, Failure("inventory-reconciliation-identity-mismatch"))
      else
        var (next, signal) := Step(s, ApplyProjection(payload.item, true, source));
        (next, Signals(SignalsOf(signal)))
  }

  /** `projectWebhook` for the topics that carry an item. */
  function ProjectEvent(s: Inventory, event: Event, remote: Remote): (Inventory, Outcome) {
    if event.topic.Unrelated? then (s, Signals([]))
    else match event.payload
      case Malformed(id, parent) =>
        if id.None? then (s, Failure("malformed-inventory-payload"))
        else ReconcileItem(s, id.value, parent, Webhook(event.id, event.receivedAt, event.topic.Restored?), remote)
      case Mapped(item) =>
        var source := Webhook(event.id, event.receivedAt, event.topic.Created? || event.topic.Restored?);
        var decision := ApplyRow(RowOf(s, item.id), item, s.threshold, false, source).1;
        var (applied, signal) := Step(s, ApplyProjection(item, false, source));
        if decision.Reconcile? then ReconcileItem(applied, item.id, item.parent, source, remote)
        else if !item.active && item.parent.Some? then
          var (next, outcome) := ReconcileItem(applied, item.parent.value, None, source, remote);
          (next, if outcome.Signals? then Signals(SignalsOf(signal) + outcome.signals) else outcome)
        else (applied, Signals(SignalsOf(signal)))
  }

  datatype Deletion = Deletion(id: Option<ItemId>, parent: Option<ItemId>, modifiedAt: Option<int>, receivedAt: int,
                               now: int)

  /** The rows a delete event is about. */
  function Concerned(s: Inventory, id: ItemId): set<ItemId> {
    set k | k in s.rows && (s.rows[k].item.id == id || s.rows[k].item.parent == Some(id))
  }

  predicate NeedsLiveRead(s: Inventory, id: ItemId, modifiedAt: Option<int>) {
    modifiedAt.None? || exists k :: k in Concerned(s, id) && s.rows[k].item.modifiedAt == modifiedAt.value
  }

  /** The parent of the live read: the payload's, else that of some row concerned. */
  predicate LooksUnder(s: Inventory, id: ItemId, supplied: Option<ItemId>, parent: Option<ItemId>) {
    if supplied.Some? then parent == supplied
    else if parent.Some? then exists k :: k in Concerned(s, id) && s.rows[k].item.parent == parent
    else forall k | k in Concerned(s, id) :: s.rows[k].item.parent.None?
  }

  /** What the live read says of a delete event: `parent` is the parent it is looked up under. */
  function ProjectDelete(s: Inventory, d: Deletion, parent: Option<ItemId>, remote: Remote): (Inventory, Outcome) {
    if d.id.None? then (s, Failure("malformed-inventory-payload"))
    else if Concerned(s, d.id.value) == {} then (s, Signals([]))
    else
      var marked := Step(s, MarkDeleted(d.id.value, d.modifiedAt, d.receivedAt)).0;
      if !NeedsLiveRead(s, d.id.value, d.modifiedAt) then (marked, Signals([]))
      else match remote(parent, d.id.value)
        case NotFound => (marked, Signals([]))
        case FetchFailed(category) => (s, Failure("woocommerce-" + category))
        case Fetched(payload) =>
          if payload.Malformed? then (s, Failure("malformed-inventory-payload"))
          else (Step(s, ApplyProjection(payload.item, true, Baseline(d.now))).0, Signals([]))
  }

  lemma ReconcileKeepsInv(s: Inventory, id: ItemId, supplied: Option<ItemId>, source: Source, remote: Remote)
    requires Inv(s) && ValidRemote(remote)
    ensures Inv(ReconcileItem(s, id, supplied, source, remote).0)
  {
    var read := remote(ParentFor(s, id, supplied), id);
    if read.Fetched? && read.payload.Mapped? {
      assert ValidPayload(read.payload);
      StepKeepsInv(s, ApplyProjection(read.payload.item, true, source));
    }
  }

  lemma EventKeepsInv(s: Inventory, event: Event, remote: Remote)
    requires Inv(s) && ValidRemote(remote) && ValidPayload(event.payload)
    ensures Inv(ProjectEvent(s, event, remote).0)
  {
    if event.payload.Mapped? {
      var item := event.payload.item;
      var source := Webhook(event.id, event.receivedAt, event.topic.Created? || event.topic.Restored?);
      StepKeepsInv(s, ApplyProjection(item, false, source));
      var applied := Step(s, ApplyProjection(item, false, source)).0;
      ReconcileKeepsInv(applied, item.id, item.parent, source, remote);
      if item.parent.Some? {
        ReconcileKeepsInv(applied, item.parent.value, None, source, remote);
      }
    } else if event.payload.id.Some? {
      ReconcileKeepsInv(s, event.payload.id.value, event.payload.parent,
                        Webhook(event.id, event.receivedAt, event.topic.Restored?), remote);
    }
  }

  lemma DeleteKeepsInv(s: Inventory, d: Deletion, parent: Option<ItemId>, remote: Remote)
    requires Inv(s) && ValidRemote(remote)
    ensures Inv(ProjectDelete(s, d, parent, remote).0)
  {
    if d.id.Some? {
      StepKeepsInv(s, MarkDeleted(d.id.value, d.modifiedAt, d.receivedAt));
      var read := remote(parent, d.id.value);
      if read.Fetched? && read.payload.Mapped? {
        assert ValidPayload(read.payload);
        StepKeepsInv(s, ApplyProjection(read.payload.item, true, Baseline(d.now)));
      }
    }
  }

  /** The delete event asks the store whether the item still exists. */
  predicate Asks(s: Inventory, d: Deletion)
    requires d.id.Some?
  {
    d.modifiedAt == None
    || exists j :: j in s.rows && (s.rows[j].item.id == d.id.value || s.rows[j].item.parent == d.id)
                   && s.rows[j].item.modifiedAt == d.modifiedAt.value
  }

  /**
   A delete that needs no live read, or that the live read confirms, marks a row exactly when it is the item's or one of
   its variations', the delete is not dated before it, and no later webhook has written it. Every other row stays.
  */
  lemma ConfirmedDelete(s: Inventory, d: Deletion, parent: Option<ItemId>, remote: Remote, k: ItemId)
    requires Inv(s) && d.id.Some? && k in s.rows
    requires Asks(s, d) ==> remote(parent, d.id.value).NotFound?
    ensures var row, after := s.rows[k], ProjectDelete(s, d, parent, remote).0;
            var marked :=
              && (row.item.id == d.id.value || row.item.parent == d.id)
              && (d.modifiedAt == None || row.item.modifiedAt <= d.modifiedAt.value)
              && (row.lastWebhookAt == None || row.lastWebhookAt.value <= d.receivedAt);
            && after.rows.Keys == s.rows.Keys && after.threshold == s.threshold
            && after.rows[k] ==
                 if !marked then row
                 else Row(row.item, Some(d.receivedAt), Some(d.receivedAt), Healthy, row.generation, Alert(None, None),
                          Alert(None, None))
  {
    AsksIff(s, d);
    assert (s.rows[k].item.id == d.id.value || s.rows[k].item.parent == d.id) ==>
             k in Concerned(s, d.id.value);
  }

  lemma AsksIff(s: Inventory, d: Deletion)
    requires d.id.Some?
    ensures NeedsLiveRead(s, d.id.value, d.modifiedAt) <==> Asks(s, d)
  {
    if d.modifiedAt.Some? && Asks(s, d) {
      var j :| j in s.rows && (s.rows[j].item.id == d.id.value || s.rows[j].item.parent == d.id)
               && s.rows[j].item.modifiedAt == d.modifiedAt.value;
      assert j in Concerned(s, d.id.value);
    }
  }

  /** A delete that the live read does not confirm marks nothing: a failing read ends it, a live item is projected. */
  lemma UnconfirmedDelete(s: Inventory, d: Deletion, parent: Option<ItemId>, remote: Remote, j: ItemId, k: ItemId)
    requires Inv(s) && d.id.Some? && j in s.rows && k in s.rows
    requires (s.rows[j].item.id == d.id.value || s.rows[j].item.parent == d.id) && Asks(s, d)
    requires !remote(parent, d.id.value).NotFound?
    ensures var (after, outcome) := ProjectDelete(s, d, parent, remote);
            var read := remote(parent, d.id.value);
            && k in after.rows
            && (outcome.Failure? <==> read.FetchFailed? || read.payload.Malformed?)
            && (outcome.Failure? ==> after == s)
            && (outcome.Signals? ==>
                  && outcome.signals == []
                  && after == Step(s, ApplyProjection(read.payload.item, true, Baseline(d.now))).0
                  && (k != read.payload.item.id ==> after.rows[k] == s.rows[k])
                  && (k == read.payload.item.id && read.payload.item.active
                      && (s.rows[k].lastWebhookAt == None
                          || read.payload.item.modifiedAt > s.rows[k].item.modifiedAt) ==>
                        after.rows[k].deletedAt == None || after.rows[k] == s.rows[k]))
  {
    AsksIff(s, d);
    assert j in Concerned(s, d.id.value);
  }

  /** Of an item nobody knows nothing is deleted, and nobody is asked. */
  lemma UnknownDelete(s: Inventory, d: Deletion, parent: Option<ItemId>, remote: Remote)
    requires d.id.Some? && forall j | j in s.rows :: s.rows[j].item.id != d.id.value && s.rows[j].item.parent != d.id
    ensures ProjectDelete(s, d, parent, remote) == (s, Signals([]))
  {
    assert Concerned(s, d.id.value) == {};
  }

  // The topics

  /** What ends without touching anything: other topics, and payloads that name no item. */
  lemma NothingNamed(s: Inventory, event: Event, d: Deletion, parent: Option<ItemId>, remote: Remote)
    ensures event.topic == Unrelated ==> ProjectEvent(s, event, remote) == (s, Signals([]))
    ensures event.topic != Unrelated && event.payload == Malformed(None, parent) ==>
              ProjectEvent(s, event, remote) == (s, Failure("malformed-inventory-payload"))
    ensures d.id == None ==> ProjectDelete(s, d, parent, remote) == (s, Failure("malformed-inventory-payload"))
  {
  }

  /**
   After an inactive variation its parent is read live, and the signals of both are returned, unless that read fails.
  */
  lemma InactiveAsksParent(s: Inventory, event: Event, remote: Remote)
    requires event.topic != Unrelated && event.payload.Mapped? && !event.payload.item.active
    requires var item := event.payload.item;
             item.parent != None
             && (item.id !in s.rows || item.modifiedAt > s.rows[item.id].item.modifiedAt)
    ensures var item, source := event.payload.item, Webhook(event.id, event.receivedAt, event.topic != Updated);
            var (applied, own) := Step(s, ApplyProjection(item, false, source));
            var (after, parents) := ReconcileItem(applied, item.parent.value, None, source, remote);
            ProjectEvent(s, event, remote) ==
              (after, if parents.Failure? then parents
                      else Signals((if own == None then [] else [own.value]) + parents.signals))
  {
  }

  /** An event that is applied, or changes nothing, on an active item returns the signal of that one step. */
  lemma ActiveSignals(s: Inventory, event: Event, remote: Remote)
    requires event.topic != Unrelated && event.payload.Mapped? && event.payload.item.active
    requires var item := event.payload.item;
             item.id !in s.rows || item.modifiedAt > s.rows[item.id].item.modifiedAt
    ensures var source := Webhook(event.id, event.receivedAt, event.topic != Updated);
            var (after, own) := Step(s, ApplyProjection(event.payload.item, false, source));
            ProjectEvent(s, event, remote) == (after, Signals(if own == None then [] else [own.value]))
  {
  }

  /** A newer update of a deleted item leaves it deleted; a newer creation or restoration revives it. */
  lemma TopicRevives(s: Inventory, event: Event, remote: Remote)
    requires Inv(s) && event.topic != Unrelated && event.payload.Mapped?
    requires var item := event.payload.item;
             && item.active && item.id in s.rows && s.rows[item.id].deletedAt != None
             && item.modifiedAt > s.rows[item.id].item.modifiedAt
    ensures var item, (after, outcome) := event.payload.item, ProjectEvent(s, event, remote);
            && item.id in after.rows && after.rows[item.id].item == item && outcome.Signals?
            && after.rows[item.id].lastWebhookAt == Some(event.receivedAt)
            && after.rows[item.id].deletedAt == if event.topic == Updated then s.rows[item.id].deletedAt else None
  {
  }

  /** One that is not newer and may revive it is left to the live read; another one changes nothing. */
  lemma TopicAsks(s: Inventory, event: Event, remote: Remote)
    requires Inv(s) && event.topic != Unrelated && event.payload.Mapped? && event.payload.item.active
    requires var item := event.payload.item;
             && item.id in s.rows && s.rows[item.id].deletedAt != None
             && item.modifiedAt <= s.rows[item.id].item.modifiedAt && item != s.rows[item.id].item
    ensures var item := event.payload.item;
            var row := s.rows[item.id];
            var source := Webhook(event.id, event.receivedAt, event.topic != Updated);
            ProjectEvent(s, event, remote) ==
              if event.topic == Updated && item.modifiedAt < row.item.modifiedAt then
                (s, Signals(SignalsOf(ReplaySignal(row, source))))
              else ReconcileItem(s, item.id, item.parent, source, remote)
  {
    assert s.rows == s.rows[event.payload.item.id := s.rows[event.payload.item.id]];
  }

  /** A payload that only names its item is left to the live read, which may revive the item for a restoration only. */
  lemma MalformedAsks(s: Inventory, event: Event, remote: Remote)
    requires event.topic != Unrelated && event.payload.Malformed? && event.payload.id != None
    ensures ProjectEvent(s, event, remote) ==
              ReconcileItem(s, event.payload.id.value, event.payload.parent,
                            Webhook(event.id, event.receivedAt, event.topic == Restored), remote)
  {
  }

  /** A live read is applied only to the item it was made for, and fails otherwise. */
  lemma ReadsOnlyItsItem(s: Inventory, id: ItemId, supplied: Option<ItemId>, source: Source, remote: Remote, k: ItemId)
    requires Inv(s)
    ensures var (after, outcome) := ReconcileItem(s, id, supplied, source, remote);
            var parent := if supplied != None then supplied else if id in s.rows then s.rows[id].item.parent else None;
            var read := remote(parent, id);
            && (outcome.Signals? <==>
                  && read.Fetched? && read.payload.Mapped? && read.payload.item.id == id
                  && (parent == None || read.payload.item.parent == parent))
            && (outcome.Failure? ==> after == s)
            && (outcome.Signals? ==>
                  var (live, signal) := Step(s, ApplyProjection(read.payload.item, true, source));
                  after == live && outcome.signals == if signal == None then [] else [signal.value])
            && (read.NotFound? ==> outcome == Failure("woocommerce-not-found"))
            && (read.FetchFailed? ==> outcome == Failure("woocommerce-" + read.category))
            && (k != id ==> (k in after.rows <==> k in s.rows) && (k in s.rows ==> after.rows[k] == s.rows[k]))
  {
  }

  /** An event touches no rows but those of the item it names and, for an inactive variation, of its parent. */
  lemma EventTouches(s: Inventory, event: Event, remote: Remote, k: ItemId)
    requires Inv(s)
    requires match event.payload
             case Mapped(item) => k != item.id && (item.active || Some(k) != item.parent)
             case Malformed(id, _) => Some(k) != id
    ensures var after := ProjectEvent(s, event, remote).0;
            (k in after.rows <==> k in s.rows) && (k in s.rows ==> after.rows[k] == s.rows[k])
  {
    match event.payload
    case Malformed(id, parent) =>
      if id.Some? {
        ReadsOnlyItsItem(s, id.value, parent, Webhook(event.id, event.receivedAt, event.topic.Restored?), remote, k);
      }
    case Mapped(item) =>
      var source := Webhook(event.id, event.receivedAt, event.topic.Created? || event.topic.Restored?);
      StepTouches(s, item, source, k);
      var applied := Step(s, ApplyProjection(item, false, source)).0;
      ReadsOnlyAny(applied, item.id, item.parent, source, remote, k);
      if item.parent.Some? && !item.active {
        ReadsOnlyAny(applied, item.parent.value, None, source, remote, k);
      }
  }

  lemma StepTouches(s: Inventory, item: Item, source: Source, k: ItemId)
    requires k != item.id
    ensures var after := Step(s, ApplyProjection(item, false, source)).0;
            (k in after.rows <==> k in s.rows) && (k in s.rows ==> after.rows[k] == s.rows[k])
  {
  }

  lemma ReadsOnlyAny(s: Inventory, id: ItemId, supplied: Option<ItemId>, source: Source, remote: Remote, k: ItemId)
    requires k != id
    ensures var after := ReconcileItem(s, id, supplied, source, remote).0;
            (k in after.rows <==> k in s.rows) && (k in s.rows ==> after.rows[k] == s.rows[k])
  {
  }

  class InventoryTable {
    var threshold: Option<nat>
    var rows: map<ItemId, Row>

    function View(): Inventory
      reads this
    {
      Inventory(threshold, rows)
    }

    constructor ()
      ensures View() == Inventory(None, map[]) && Inv(View())
    {
      threshold := None;
      rows := map[];
    }

    /** One serializable transaction. */
    method ApplyProjection(candidate: Item, authoritative: bool, source: Source)
      returns (decision: Decision, signal: Option<Signal>)
      requires Inv(View()) && ValidItem(candidate)
      modifies this`rows
      ensures Inv(View())
      ensures (View(), signal) == Step(old(View()), InventoryItems.ApplyProjection(candidate, authoritative, source))
      ensures decision == ApplyRow(RowOf(old(View()), candidate.id), candidate, threshold, authoritative, source).1
    {
      StepKeepsInv(View(), InventoryItems.ApplyProjection(candidate, authoritative, source));
      var alertClass :=
        if candidate.active then Classify(candidate.managesStock, candidate.quantity, candidate.status, threshold)
        else Healthy;
      if candidate.id !in rows {
        if candidate.active {
          rows := rows[candidate.id := CreatedRow(candidate, alertClass, source)];
          return Apply, EntrySignal(candidate.id, if alertClass.Healthy? then 0 else 1, alertClass, source);
        }
        return Apply, None;
      }
      var existing := rows[candidate.id];
      decision := DecideOn(existing, candidate, authoritative, source);
      if decision != Apply {
        signal := ReplaySignal(existing, source);
        assert rows == rows[candidate.id := existing];
        return;
      }
      var preserved := if ClearsDeletion(source) then None else existing.deletedAt;
      if preserved.Some? {
        alertClass := Healthy;
      }
      var next, incident := NextIncident(existing, alertClass, source).0, NextIncident(existing, alertClass, source).1;
      signal := incident;
      next := next.(item := candidate);
      if source.Webhook? {
        next := next.(lastWebhookAt := Some(source.receivedAt));
      }
      if candidate.active {
        next := next.(deletedAt := preserved);
      } else {
        next := next.(deletedAt := Some(if source.Webhook? then source.receivedAt else source.now));
      }
      rows := rows[candidate.id := next];
    }

    method Reconcile(id: ItemId, supplied: Option<ItemId>, source: Source, remote: Remote) returns (outcome: Outcome)
      requires Inv(View()) && ValidRemote(remote)
      modifies this`rows
      ensures Inv(View())
      ensures (View(), outcome) == ReconcileItem(old(View()), id, supplied, source, remote)
    {
      ReconcileKeepsInv(View(), id, supplied, source, remote);
      var parent := supplied;
      if parent.None? && id in rows {
        parent := rows[id].item.parent;
      }
      var read := remote(parent, id);
      match read
      case NotFound =>
        return Failure("woocommerce-not-found");
      case FetchFailed(category) =>
        return Failure("woocommerce-" + category);
      case Fetched(payload) =>
        if payload.Malformed? {
          return Failure("malformed-inventory-reconciliation-payload");
        }
        if payload.item.id != id || (parent.Some? && payload.item.parent != parent) {
          return Failure("inventory-reconciliation-identity-mismatch");
        }
        var _, signal := ApplyProjection(payload.item, true, source);
        outcome := Signals(SignalsOf(signal));
    }

    method ProjectWebhook(event: Event, remote: Remote) returns (outcome: Outcome)
      requires Inv(View()) && ValidRemote(remote) && ValidPayload(event.payload)
      modifies this`rows
      ensures Inv(View())
      ensures (View(), outcome) == ProjectEvent(old(View()), event, remote)
    {
      EventKeepsInv(View(), event, remote);
      if event.topic.Unrelated? {
        return Signals([]);
      }
      if event.payload.Malformed? {
        if event.payload.id.None? {
          return Failure("malformed-inventory-payload");
        }
        outcome := Reconcile(event.payload.id.value, event.payload.parent,
                             Webhook(event.id, event.receivedAt, event.topic.Restored?), remote);
        return;
      }
      var item := event.payload.item;
      var source := Webhook(event.id, event.receivedAt, event.topic.Created? || event.topic.Restored?);
      var decision, signal := ApplyProjection(item, false, source);
      if decision.Reconcile? {
        outcome := Reconcile(item.id, item.parent, source, remote);
        return;
      }
      var signals := SignalsOf(signal);
      if !item.active && item.parent.Some? {
        outcome := Reconcile(item.parent.value, None, source, remote);
        if outcome.Signals? {
          outcome := Signals(signals + outcome.signals);
        }
      } else {
        outcome := Signals(signals);
      }
    }

    method ProjectDeletion(d: Deletion, remote: Remote) returns (outcome: Outcome, parent: Option<ItemId>)
      requires Inv(View()) && ValidRemote(remote)
      modifies this`rows
      ensures Inv(View())
      ensures (View(), outcome) == ProjectDelete(old(View()), d, parent, remote)
      ensures d.id.Some? ==> LooksUnder(old(View()), d.id.value, d.parent, parent)
    {
      parent := d.parent;
      if d.id.None? {
        return Failure("malformed-inventory-payload"), parent;
      }
      var id := d.id.value;
      var concerned := Concerned(View(), id);
      if parent.None? {
        var withParent := set k | k in concerned && rows[k].item.parent.Some?;
        if withParent != {} {
          var k :| k in withParent;
          parent := rows[k].item.parent;
        } else {
          assert forall k | k in concerned :: k !in withParent;
        }
      }
      DeleteKeepsInv(View(), d, parent, remote);
      if concerned == {} {
        return Signals([]), parent;
      }
      if NeedsLiveRead(View(), id, d.modifiedAt) {
        var read := remote(parent, id);
        if read.FetchFailed? {
          return Failure("woocommerce-" + read.category), parent;
        }
        if read.Fetched? {
          if read.payload.Malformed? {
            return Failure("malformed-inventory-payload"), parent;
          }
          assert ValidPayload(read.payload);
          var _, _ := ApplyProjection(read.payload.item, true, Baseline(d.now));
          return Signals([]), parent;
        }
      }
      rows := MarkDeletedRows(rows, id, d.modifiedAt, d.receivedAt);
      outcome := Signals([]);
    }

    /** The threshold branches of the settings service. */
    method ChangeThreshold(next: Option<nat>) returns (changed: bool)
      requires Inv(View())
      modifies this
      ensures Inv(View())
      ensures View() == Step(old(View()), SetThreshold(next)).0 && changed == (next != old(threshold))
    {
      StepKeepsInv(View(), SetThreshold(next));
      if threshold == next {
        return false;
      }
      threshold := next;
      rows := RebaselinedRows(rows, next);
      changed := true;
    }

    /** `captureRecipients`: whether this call is the one that creates the deliveries. */
    method CaptureRecipients(signal: Signal, now: int) returns (captured: bool)
      requires Inv(View())
      modifies this`rows
      ensures Inv(View())
      ensures View() == Step(old(View()), Capture(signal, now)).0
      ensures captured == CapturesNow(old(View()), Capture(signal, now), signal.item, signal.level)
      ensures captured <==>
                && signal.item in old(rows) && old(rows)[signal.item].generation == signal.generation
                && (if signal.level == Low then old(rows)[signal.item].low else old(rows)[signal.item].out)
                     == Alert(Some(signal.source), None)
      ensures !captured ==> rows == old(rows)
      ensures captured ==>
                var row, alert := old(rows)[signal.item], Alert(Some(signal.source), Some(now));
                rows == old(rows)[signal.item := if signal.level == Low then row.(low := alert) else row.(out := alert)]
    {
      StepKeepsInv(View(), Capture(signal, now));
      if signal.item !in rows {
        return false;
      }
      var row := rows[signal.item];
      captured := row.generation == signal.generation && AlertAt(row, signal.level) == Alert(Some(signal.source), None);
      if captured {
        rows := rows[signal.item :=
          if signal.level.Low? then row.(low := Alert(row.low.source, Some(now)))
          else row.(out := Alert(row.out.source, Some(now)))];
      } else {
        assert rows == rows[signal.item := row];
      }
    }
  }
}
