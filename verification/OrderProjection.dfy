/**
 The order mirror: last writer wins by remote modification time, ties settled by a live read.

 One transaction of the service is one step on the row of an order. A live read is modelled as returning the
 remote order as it is at that step.
*/
module OrderProjection {
  import opened Common
  import opened Utf16
  import opened CanonicalJson
  import opened OrderPayload
  import opened Wrappers

  datatype DeletionMode = Clear | Preserve

  datatype Row = Row(order: Order, fingerprint: Digest<Text>)

  /** The stored fingerprint is the fingerprint of what is stored. */
  predicate ValidRow(r: Row) {
    Storable(r.order) && r.fingerprint == Fingerprint(r.order)
  }

  /** A mapped payload: live orders carry no deletion mark. */
  predicate ValidCandidate(o: Order) {
    Storable(o) && o.deletedAt.None?
  }

  function DecideOrderProjection(storedModifiedAt: int, storedFingerprint: Digest<Text>, incomingModifiedAt: int,
                                 incomingFingerprint: Digest<Text>, authoritative: bool): Decision
  {
    if incomingModifiedAt < storedModifiedAt then Noop
    else if incomingModifiedAt > storedModifiedAt then Apply
    else if storedFingerprint == incomingFingerprint then Noop
    else if authoritative then Apply
    else Reconcile
  }

  function WithRemoteDeletedAt(o: Order, deletedAt: Option<int>): Order {
    o.(deletedAt := deletedAt)
  }

  /** The row after `applyProjection`, and its decision. */
  function ApplyProjection(existing: Option<Row>, candidate: Order, authoritative: bool, mode: DeletionMode):
      (Option<Row>, Decision)
    requires Storable(candidate)
  {
    match existing
    case None => (Some(Row(candidate, Fingerprint(candidate))), Apply)
    case Some(row) =>
      var projection := if mode.Preserve? then WithRemoteDeletedAt(candidate, row.order.deletedAt) else candidate;
      var fingerprint := Fingerprint(projection);
      var decision := DecideOrderProjection(row.order.modifiedAt, row.fingerprint, projection.modifiedAt, fingerprint,
                                            authoritative);
      if decision.Apply? then (Some(Row(projection.(wcOrderId := row.order.wcOrderId), fingerprint)), decision)
      else (existing, decision)
  }

  /** The row after `projectDeletion`. */
  function ProjectDeletion(existing: Option<Row>, receivedAt: int): Option<Row>
    requires existing.Some? ==> Storable(existing.value.order)
  {
    match existing
    case None => None
    case Some(row) =>
      if row.order.deletedAt.Some? && receivedAt <= row.order.deletedAt.value then existing
      else
        var deleted := WithRemoteDeletedAt(row.order, Some(receivedAt));
        Some(Row(deleted, Fingerprint(deleted)))
  }

  /** The row after a scrub that replaces the two customer-facing snapshots. */
  function ScrubRow(existing: Option<Row>, customer: Json, lineItems: Json): Option<Row>
    requires existing.Some? ==> Storable(existing.value.order)
    requires StorableJson(customer) && StorableJson(lineItems)
  {
    match existing
    case None => None
    case Some(row) =>
      if row.order.customer == customer && row.order.lineItems == lineItems then existing
      else
        var scrubbed := row.order.(customer := customer, lineItems := lineItems);
        Some(Row(scrubbed, Fingerprint(scrubbed)))
  }

  /** What is read back of a row: the database may return the members of objects in another order. */
  ghost predicate Reread(back: Row, row: Row) {
    back.fingerprint == row.fingerprint && Storable(back.order) && SameOrder(back.order, row.order)
  }

  lemma RereadKeepsRow(back: Row, row: Row)
    requires ValidRow(row) && Reread(back, row)
    ensures ValidRow(back)
  {
    FingerprintIff(back.order, row.order);
  }

  // One order and its remote original

  /** `history` holds the snapshots the remote order has had, that is, the payloads events may carry. */
  datatype World = World(remote: Order, history: set<Order>, row: Option<Row>)

  datatype Topic = Created | Updated | Restored

  datatype Action =
    | RemoteChange(snapshot: Order)
    | Deliver(topic: Topic, payload: Order)
    | LiveRead
    | Delete(receivedAt: int)
    | Scrub(customer: Json, lineItems: Json)
    | ReadBack(back: Row)

  function ModeOf(topic: Topic): DeletionMode {
    if topic.Restored? then Clear else Preserve
  }

  ghost predicate Enabled(w: World, a: Action) {
    match a
    case RemoteChange(o) =>
      ValidCandidate(o) && o.wcOrderId == w.remote.wcOrderId && o.modifiedAt >= w.remote.modifiedAt
    case Deliver(_, o) => o in w.history
    case Scrub(customer, lineItems) => StorableJson(customer) && StorableJson(lineItems)
    case ReadBack(back) => w.row.Some? && Reread(back, w.row.value)
    case _ => true
  }

  ghost predicate Inv(w: World) {
    && ValidCandidate(w.remote)
    && (forall o | o in w.history ::
          ValidCandidate(o) && o.wcOrderId == w.remote.wcOrderId && o.modifiedAt <= w.remote.modifiedAt)
    && (w.row.Some? ==>
          && ValidRow(w.row.value) && w.row.value.order.wcOrderId == w.remote.wcOrderId
          && w.row.value.order.modifiedAt <= w.remote.modifiedAt)
  }

  ghost function Step(w: World, a: Action): (World, Decision)
    requires Inv(w)
  {
    if !Enabled(w, a) then (w, Noop)
    else match a
      case RemoteChange(o) => (w.(remote := o, history := w.history + {o}), Noop)
      case Deliver(topic, o) =>
        var (row, decision) := ApplyProjection(w.row, o, false, ModeOf(topic));
        (w.(row := row), decision)
      case LiveRead =>
        var (row, decision) := ApplyProjection(w.row, w.remote, true, Clear);
        (w.(row := row), decision)
      case Delete(receivedAt) => (w.(row := ProjectDeletion(w.row, receivedAt)), Apply)
      case Scrub(customer, lineItems) => (w.(row := ScrubRow(w.row, customer, lineItems)), Apply)
      case ReadBack(back) => (w.(row := Some(back)), Noop)
  }

  lemma ApplyKeepsRow(existing: Option<Row>, candidate: Order, authoritative: bool, mode: DeletionMode)
    requires Storable(candidate)
    requires existing.Some? ==> ValidRow(existing.value) && existing.value.order.wcOrderId == candidate.wcOrderId
    ensures var r := ApplyProjection(existing, candidate, authoritative, mode).0;
            && r.Some? && ValidRow(r.value) && r.value.order.wcOrderId == candidate.wcOrderId
            && (existing.Some? ==> existing.value.order.modifiedAt <= r.value.order.modifiedAt)
            && (r == existing || r.value.order.modifiedAt == candidate.modifiedAt)
  {
  }

  lemma DeleteKeepsRow(existing: Option<Row>, receivedAt: int)
    requires existing.Some? ==> ValidRow(existing.value)
    ensures var r := ProjectDeletion(existing, receivedAt);
            && (r.Some? <==> existing.Some?)
            && (r.Some? ==>
                  ValidRow(r.value) && r.value.order == existing.value.order.(deletedAt := r.value.order.deletedAt))
  {
  }

  lemma ScrubKeepsRow(row: Row, customer: Json, lineItems: Json)
    requires ValidRow(row) && StorableJson(customer) && StorableJson(lineItems)
    ensures var r := ScrubRow(Some(row), customer, lineItems);
            && r.Some? && ValidRow(r.value) && r.value.order == row.order.(customer := customer, lineItems := lineItems)
            && (r.value == row <==> row.order.customer == customer && row.order.lineItems == lineItems)
  {
  }

  /** Every step keeps the fingerprint in agreement with the row, and the stored time never falls. */
  lemma StepKeepsInv(w: World, a: Action)
    requires Inv(w)
    ensures Inv(Step(w, a).0)
    ensures w.row.Some? ==>
              && Step(w, a).0.row.Some?
              && w.row.value.order.modifiedAt <= Step(w, a).0.row.value.order.modifiedAt
  {
    if Enabled(w, a) {
      match a
      case RemoteChange(o) =>
      case Deliver(topic, o) => ApplyKeepsRow(w.row, o, false, ModeOf(topic));
      case LiveRead => ApplyKeepsRow(w.row, w.remote, true, Clear);
      case Delete(receivedAt) => DeleteKeepsRow(w.row, receivedAt);
      case Scrub(customer, lineItems) =>
        if w.row.Some? {
          ScrubKeepsRow(w.row.value, customer, lineItems);
        }
      case ReadBack(back) => RereadKeepsRow(back, w.row.value);
    }
  }

  ghost function Run(w: World, actions: seq<Action>): World
    requires Inv(w)
    decreases |actions|
  {
    if actions == [] then w
    else
      StepKeepsInv(w, actions[0]);
      Run(Step(w, actions[0]).0, actions[1..])
  }

  /** In every run the fingerprint agrees with the row and the stored modification time never falls. */
  lemma {:induction false} RunKeepsInv(w: World, actions: seq<Action>)
    requires Inv(w)
    ensures Inv(Run(w, actions))
    ensures w.row.Some? ==>
              && Run(w, actions).row.Some?
              && w.row.value.order.modifiedAt <= Run(w, actions).row.value.order.modifiedAt
    decreases |actions|
  {
    if actions != [] {
      StepKeepsInv(w, actions[0]);
      RunKeepsInv(Step(w, actions[0]).0, actions[1..]);
    }
  }

  // Convergence

  /** Equal in everything but the deletion mark. */
  ghost predicate SameContent(a: Order, b: Order) {
    SameOrder(a.(deletedAt := None), b.(deletedAt := None))
  }

  ghost predicate Matches(w: World) {
    w.row.Some? && SameContent(w.row.value.order, w.remote)
  }

  lemma SameOrderReflexive(o: Order)
    requires Storable(o)
    ensures SameOrder(o, o)
  {
    FingerprintIff(o, o);
  }

  lemma FingerprintSameContent(a: Order, b: Order)
    requires Storable(a) && Storable(b) && Fingerprint(a) == Fingerprint(b)
    ensures SameContent(a, b) && SameContent(b, a)
  {
    FingerprintIff(a, b);
    FingerprintIff(b, a);
  }

  /** A candidate as new as the row ends up in the row, unless a live read is asked for. */
  lemma ApplyMatches(existing: Option<Row>, candidate: Order, authoritative: bool, mode: DeletionMode)
    requires ValidCandidate(candidate)
    requires existing.Some? ==>
               && ValidRow(existing.value) && existing.value.order.wcOrderId == candidate.wcOrderId
               && existing.value.order.modifiedAt <= candidate.modifiedAt
    ensures var (r, decision) := ApplyProjection(existing, candidate, authoritative, mode);
            && (decision.Reconcile? ==> !authoritative)
            && (!decision.Reconcile? ==> r.Some? && SameContent(r.value.order, candidate))
  {
    SameOrderReflexive(candidate);
    if existing.Some? {
      var projection :=
        if mode.Preserve? then WithRemoteDeletedAt(candidate, existing.value.order.deletedAt) else candidate;
      if Fingerprint(projection) == existing.value.fingerprint {
        FingerprintSameContent(existing.value.order, projection);
      }
    }
  }

  /** An older or equally old candidate never replaces the row without a live read. */
  lemma StaleChangesNothing(existing: Row, candidate: Order, mode: DeletionMode)
    requires Storable(candidate) && candidate.modifiedAt <= existing.order.modifiedAt
    ensures ApplyProjection(Some(existing), candidate, false, mode).0 == Some(existing)
  {
  }

  /**
   Processing the event of the remote order's current snapshot mirrors it, directly or by the live read it asks for.
  */
  lemma FinalSnapshotMatches(w: World, topic: Topic)
    requires Inv(w) && w.remote in w.history
    ensures var (after, decision) := Step(w, Deliver(topic, w.remote));
            if decision.Reconcile? then after == w else Matches(after)
  {
    ApplyMatches(w.row, w.remote, false, ModeOf(topic));
  }

  lemma LiveReadMatches(w: World)
    requires Inv(w)
    ensures Matches(Step(w, LiveRead).0)
  {
    ApplyMatches(w.row, w.remote, true, Clear);
  }

  /** The remote order stays, and scrubs write the content of its snapshots. */
  ghost predicate Keeps(remote: Order, a: Action) {
    && !a.RemoteChange?
    && (a.Scrub? ==> SameValue(a.customer, remote.customer) && SameValue(a.lineItems, remote.lineItems))
  }

  lemma SameContentIff(a: Order, b: Order)
    requires Storable(a) && Storable(b)
    ensures SameContent(a, b) <==> Fingerprint(a.(deletedAt := None)) == Fingerprint(b.(deletedAt := None))
  {
    FingerprintIff(a.(deletedAt := None), b.(deletedAt := None));
  }

  lemma ReadBackMatches(back: Row, row: Row, remote: Order)
    requires ValidRow(row) && Reread(back, row) && Storable(remote) && SameContent(row.order, remote)
    ensures SameContent(back.order, remote)
  {
    assert SameContent(back.order, row.order);
    SameContentIff(back.order, row.order);
    SameContentIff(row.order, remote);
    SameContentIff(back.order, remote);
  }

  lemma MatchedStep(w: World, a: Action)
    requires Inv(w) && Matches(w) && Keeps(w.remote, a)
    ensures var after := Step(w, a).0;
            Inv(after) && Matches(after) && after.remote == w.remote && after.history == w.history
  {
    StepKeepsInv(w, a);
    if Enabled(w, a) {
      match a
      case Deliver(topic, o) => StaleChangesNothing(w.row.value, o, ModeOf(topic));
      case LiveRead => LiveReadMatches(w);
      case Delete(receivedAt) => DeleteKeepsRow(w.row, receivedAt);
      case Scrub(customer, lineItems) => ScrubKeepsRow(w.row.value, customer, lineItems);
      case ReadBack(back) => ReadBackMatches(back, w.row.value, w.remote);
    }
  }

  /** Once mirrored, the content stays mirrored through any deliveries, live reads, deletions, scrubs and rereads. */
  lemma {:induction false} MatchedRun(w: World, actions: seq<Action>)
    requires Inv(w) && Matches(w)
    requires forall a | a in actions :: Keeps(w.remote, a)
    ensures Inv(Run(w, actions)) && Matches(Run(w, actions)) && Run(w, actions).remote == w.remote
    decreases |actions|
  {
    if actions != [] {
      MatchedStep(w, actions[0]);
      MatchedRun(Step(w, actions[0]).0, actions[1..]);
    }
  }

  /** The steps of one event: its delivery and, if that asks for it, a live read after any steps of others. */
  ghost function ProcessEvent(w: World, topic: Topic, payload: Order, between: seq<Action>): World
    requires Inv(w)
  {
    StepKeepsInv(w, Deliver(topic, payload));
    var (delivered, decision) := Step(w, Deliver(topic, payload));
    RunKeepsInv(delivered, between);
    var others := Run(delivered, between);
    if decision.Reconcile? then Step(others, LiveRead).0 else others
  }

  lemma {:induction false} RunKeepsRemote(w: World, actions: seq<Action>)
    requires Inv(w)
    requires forall a | a in actions :: !a.RemoteChange?
    ensures Run(w, actions).remote == w.remote
    decreases |actions|
  {
    if actions != [] {
      StepKeepsInv(w, actions[0]);
      RunKeepsRemote(Step(w, actions[0]).0, actions[1..]);
    }
  }

  lemma ProcessedMatches(w: World, topic: Topic, between: seq<Action>)
    requires Inv(w) && w.remote in w.history && forall a | a in between :: Keeps(w.remote, a)
    ensures var processed := ProcessEvent(w, topic, w.remote, between);
            Inv(processed) && Matches(processed) && processed.remote == w.remote
  {
    FinalSnapshotMatches(w, topic);
    StepKeepsInv(w, Deliver(topic, w.remote));
    var (delivered, decision) := Step(w, Deliver(topic, w.remote));
    assert delivered.remote == w.remote;
    RunKeepsInv(delivered, between);
    assert forall a | a in between :: Keeps(w.remote, a) && !a.RemoteChange?;
    RunKeepsRemote(delivered, between);
    if decision.Reconcile? {
      StepKeepsInv(Run(delivered, between), LiveRead);
      LiveReadMatches(Run(delivered, between));
    } else {
      MatchedRun(delivered, between);
    }
  }

  /**
   Eventual agreement. Whatever happened before, once the event of the remote order's last snapshot has been
   processed the mirror has that snapshot's content, and keeps it through every later delivery in any order,
   with any duplicates, live reads, deletions, scrubs that keep it, and rereads.
  */
  lemma ConvergesOnceProcessed(start: World, before: seq<Action>, topic: Topic, between: seq<Action>,
                               after: seq<Action>)
    requires Inv(start) && start.remote in start.history
    requires forall a | a in between :: Keeps(Run(start, before).remote, a)
    requires forall a | a in after :: Keeps(Run(start, before).remote, a)
    ensures Inv(Run(start, before))
    ensures var w := Run(start, before);
            var processed := ProcessEvent(w, topic, w.remote, between);
            Inv(processed) && Matches(Run(processed, after)) && Run(processed, after).remote == w.remote
  {
    RunKeepsInv(start, before);
    RemoteInHistory(start, before);
    var w := Run(start, before);
    ProcessedMatches(w, topic, between);
    MatchedRun(ProcessEvent(w, topic, w.remote, between), after);
  }

  /** The row, if any, carries no deletion mark. */
  predicate Unmarked(w: World) {
    w.row.Some? ==> w.row.value.order.deletedAt.None?
  }

  lemma UnmarkedStep(w: World, a: Action)
    requires Inv(w) && Unmarked(w) && !a.Delete?
    ensures Unmarked(Step(w, a).0)
  {
  }

  lemma {:induction false} UnmarkedRun(w: World, actions: seq<Action>)
    requires Inv(w) && Unmarked(w) && forall a | a in actions :: !a.Delete?
    ensures Unmarked(Run(w, actions))
    decreases |actions|
  {
    if actions != [] {
      StepKeepsInv(w, actions[0]);
      UnmarkedStep(w, actions[0]);
      UnmarkedRun(Step(w, actions[0]).0, actions[1..]);
    }
  }

  /** Without deletions the mirror ends up with the whole snapshot, unmarked. */
  lemma ConvergesUnmarked(start: World, before: seq<Action>, topic: Topic, between: seq<Action>, after: seq<Action>)
    requires Inv(start) && Unmarked(start) && start.remote in start.history
    requires forall a | a in between :: Keeps(Run(start, before).remote, a)
    requires forall a | a in after :: Keeps(Run(start, before).remote, a)
    requires forall a | a in before :: !a.Delete?
    requires forall a | a in between :: !a.Delete?
    requires forall a | a in after :: !a.Delete?
    ensures Inv(Run(start, before))
    ensures var w := Run(start, before);
            var processed := ProcessEvent(w, topic, w.remote, between);
            && Inv(processed)
            && var row := Run(processed, after).row;
               row.Some? && SameOrder(row.value.order, w.remote) && row.value.order.deletedAt.None?
  {
    ConvergesOnceProcessed(start, before, topic, between, after);
    var w := Run(start, before);
    var processed := ProcessEvent(w, topic, w.remote, between);
    UnmarkedRun(start, before);
    UnmarkedStep(w, Deliver(topic, w.remote));
    StepKeepsInv(w, Deliver(topic, w.remote));
    var (delivered, decision) := Step(w, Deliver(topic, w.remote));
    RunKeepsInv(delivered, between);
    UnmarkedRun(delivered, between);
    if decision.Reconcile? {
      UnmarkedStep(Run(delivered, between), LiveRead);
    }
    UnmarkedRun(processed, after);
    var row := Run(processed, after).row.value;
    assert row.order.(deletedAt := None) == row.order;
    RunKeepsInv(processed, after);
    assert w.remote.(deletedAt := None) == w.remote;
  }

  // The deletion mark

  function Mark(w: World): Option<int> {
    if w.row.Some? then w.row.value.order.deletedAt else None
  }

  /** A creation or an update leaves the mark of a row as it is; a restoration that is applied clears it. */
  lemma DeliveryMarks(w: World, topic: Topic, o: Order)
    requires Inv(w) && w.row.Some? && o in w.history
    ensures var (after, decision) := Step(w, Deliver(topic, o));
            && after.row.Some?
            && (topic != Restored ==> after.row.value.order.deletedAt == w.row.value.order.deletedAt)
            && (topic == Restored && decision == Apply ==> after.row.value.order == o && o.deletedAt == None)
            && (decision != Apply ==> after == w)
            && (decision == Apply <==> o.modifiedAt > w.row.value.order.modifiedAt)
  {
  }

  /** An order nobody knows is stored as it comes, by any delivery or live read. */
  lemma NewOrder(w: World, topic: Topic, o: Order)
    requires Inv(w) && w.row == None && o in w.history
    ensures Step(w, Deliver(topic, o)).0.row.Some? && Step(w, Deliver(topic, o)).0.row.value.order == o
    ensures Step(w, Deliver(topic, o)).1 == Apply
    ensures Step(w, LiveRead).0.row.Some? && Step(w, LiveRead).0.row.value.order == w.remote
  {
  }

  /**
   A delivery asks for a live read exactly when its payload is as old as the row and would change it; the live read then
   changes the row exactly when it is as new as the row and differs.
  */
  lemma TieAsksIff(w: World, topic: Topic, o: Order)
    requires Inv(w) && w.row.Some? && o in w.history
    ensures var row := w.row.value.order;
            var kept := o.(deletedAt := if topic == Restored then None else row.deletedAt);
            && (Step(w, Deliver(topic, o)).1 == Reconcile <==> o.modifiedAt == row.modifiedAt && !SameOrder(row, kept))
            && (SameOrder(row, w.remote) ==> Step(w, LiveRead).0 == w)
            && (!SameOrder(row, w.remote) ==> Step(w, LiveRead).0.row.value.order == w.remote)
  {
    var row := w.row.value.order;
    var kept := o.(deletedAt := if topic == Restored then None else row.deletedAt);
    FingerprintIff(row, kept);
    FingerprintIff(row, w.remote);
    assert row.modifiedAt <= w.remote.modifiedAt;
  }

  /**
   A deletion marks the row with its time, unless one at least as late is stored, and changes nothing else of the
   order.
  */
  lemma DeletionMarks(w: World, receivedAt: int)
    requires Inv(w)
    ensures var after := Step(w, Delete(receivedAt)).0;
            && (after.row.Some? <==> w.row.Some?)
            && (w.row.Some? ==>
                  var stored := w.row.value.order.deletedAt;
                  after.row.value.order == w.row.value.order.(
                    deletedAt := if stored != None && receivedAt <= stored.value then stored else Some(receivedAt)))
  {
  }

  lemma MarkStep(w: World, a: Action)
    requires Inv(w) && Mark(w).Some? && !a.LiveRead? && !(a.Deliver? && a.topic == Restored)
    ensures var after := Step(w, a).0;
            && Mark(after).Some? && Mark(w).value <= Mark(after).value
            && (Mark(after) != Mark(w) ==> a == Delete(Mark(after).value))
  {
    StepKeepsInv(w, a);
  }

  /**
   In every run a mark disappears only at the delivery of a restoration or at a live read, and otherwise only grows.
  */
  lemma {:induction false} MarkStays(w: World, actions: seq<Action>)
    requires Inv(w) && Mark(w).Some?
    requires forall a | a in actions :: !a.LiveRead? && !(a.Deliver? && a.topic == Restored)
    ensures Mark(Run(w, actions)).Some? && Mark(w).value <= Mark(Run(w, actions)).value
    decreases |actions|
  {
    if actions != [] {
      StepKeepsInv(w, actions[0]);
      MarkStep(w, actions[0]);
      MarkStays(Step(w, actions[0]).0, actions[1..]);
    }
  }

  lemma {:induction false} RemoteInHistory(w: World, actions: seq<Action>)
    requires Inv(w) && w.remote in w.history
    ensures Run(w, actions).remote in Run(w, actions).history
    decreases |actions|
  {
    if actions != [] {
      StepKeepsInv(w, actions[0]);
      RemoteInHistory(Step(w, actions[0]).0, actions[1..]);
    }
  }
}
