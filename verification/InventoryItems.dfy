/**
 Inventory rows and alert incidents.

 The alert class stored in a row is a cache of a pure classifier over the row and the store's threshold. It is kept by
 webhooks, the bootstrap, deletions and the threshold's bulk update; the incident counter and the alert signals sit
 on top of it. Each database transaction is one step.
*/
module InventoryItems {
  import opened Common
  import opened Wrappers

  type EventId = nat

  datatype StockStatus = InStock | OutOfStock | OnBackorder

  datatype Kind = Product | Variation

  /** Quantities are exact rationals. */
  datatype Item = Item(
    id: ItemId,
    parent: Option<ItemId>,
    kind: Kind,
    displayName: string,
    sku: Option<string>,
    variationContext: seq<string>,
    managesStock: bool,
    quantity: Option<real>,
    status: StockStatus,
    modifiedAt: int,
    active: bool
  )

  /** What the mapper guarantees of `active`, from the payload's stock management and product type. */
  predicate ActiveRule(managesStock: bool, inheritsParentStock: bool, status: StockStatus, kind: Kind,
                       variableType: bool, active: bool)
  {
    active == (managesStock || (!inheritsParentStock && status.OutOfStock? && (kind.Variation? || !variableType)))
  }

  predicate ValidItem(c: Item) {
    && (!c.managesStock ==> c.quantity.None?)
    && exists inherits, variableType :: ActiveRule(c.managesStock, inherits, c.status, c.kind, variableType, c.active)
  }

  datatype AlertClass = Healthy | LowStock | OutOfStockAlert

  datatype Level = Low | Out

  function Classify(managesStock: bool, quantity: Option<real>, status: StockStatus,
                    threshold: Option<nat>): AlertClass
  {
    if status.OutOfStock? then OutOfStockAlert
    else if managesStock && quantity.Some? && threshold.Some? && quantity.value <= threshold.value as real then LowStock
    else Healthy
  }

  function ClassOf(item: Item, threshold: Option<nat>): AlertClass {
    Classify(item.managesStock, item.quantity, item.status, threshold)
  }

  /** Who caused the alert of one level in the current incident, and when its recipients were captured. */
  datatype Alert = Alert(source: Option<EventId>, capturedAt: Option<int>)

  const NO_ALERT := Alert(None, None)

  /** The stored fingerprint determines the projected item; here the item stands for it. */
  datatype Row = Row(
    item: Item,
    deletedAt: Option<int>,
    lastWebhookAt: Option<int>,
    alertClass: AlertClass,
    generation: nat,
    low: Alert,
    out: Alert
  )

  datatype Inventory = Inventory(threshold: Option<nat>, rows: map<ItemId, Row>)

  datatype Signal = Signal(item: ItemId, generation: nat, level: Level, source: EventId)

  datatype Source = Webhook(event: EventId, receivedAt: int, clearDeletion: bool) | Baseline(now: int)

  function ClearsDeletion(s: Source): bool {
    s.Baseline? || s.clearDeletion
  }

  function Decide(row: Row, candidate: Item, authoritative: bool): Decision {
    if candidate.modifiedAt < row.item.modifiedAt then Noop
    else if candidate.modifiedAt > row.item.modifiedAt then Apply
    else if candidate == row.item then Noop
    else if authoritative then Apply
    else Reconcile
  }

  /** A page fetched before a webhook loses; an equal reactivation of a deleted row is verified once. */
  function DecideOn(row: Row, candidate: Item, authoritative: bool, source: Source): Decision {
    if source.Baseline? && row.lastWebhookAt.Some? && candidate.modifiedAt <= row.item.modifiedAt then Noop
    else if row.deletedAt.Some? && ClearsDeletion(source) && Decide(row, candidate, authoritative).Noop? then
      if authoritative then Apply else Reconcile
    else Decide(row, candidate, authoritative)
  }

  function ReplaySignal(row: Row, source: Source): Option<Signal> {
    if source.Baseline? then None
    else if row.low.source == Some(source.event) then Some(Signal(row.item.id, row.generation, Low, source.event))
    else if row.out.source == Some(source.event) then Some(Signal(row.item.id, row.generation, Out, source.event))
    else None
  }

  function EventOf(source: Source): Option<EventId> {
    if source.Webhook? then Some(source.event) else None
  }

  function EntrySignal(id: ItemId, generation: nat, alertClass: AlertClass, source: Source): Option<Signal> {
    if source.Baseline? || alertClass.Healthy? then None
    else Some(Signal(id, generation, if alertClass.LowStock? then Low else Out, source.event))
  }

  /** The incident part of the row after its class becomes `alertClass`, and the signal. */
  function NextIncident(row: Row, alertClass: AlertClass, source: Source): (Row, Option<Signal>) {
    if alertClass.Healthy? then (row.(alertClass := alertClass, low := NO_ALERT, out := NO_ALERT), None)
    else if row.alertClass == alertClass then (row, ReplaySignal(row, source))
    else if row.alertClass.OutOfStockAlert? then (row.(alertClass := alertClass), None)
    else
      var starts := row.alertClass.Healthy?;
      var generation := if starts then row.generation + 1 else row.generation;
      var entered := Alert(EventOf(source), None);
      var low := if alertClass.LowStock? then entered else if starts then NO_ALERT else row.low;
      var out := if alertClass.LowStock? then (if starts then NO_ALERT else row.out) else entered;
      (row.(alertClass := alertClass, generation := generation, low := low, out := out),
       EntrySignal(row.item.id, generation, alertClass, source))
  }

  function CreatedRow(candidate: Item, alertClass: AlertClass, source: Source): Row {
    var entered := Alert(EventOf(source), None);
    Row(candidate, None, if source.Webhook? then Some(source.receivedAt) else None, alertClass,
        if alertClass.Healthy? then 0 else 1,
        if alertClass.LowStock? then entered else NO_ALERT, if alertClass.OutOfStockAlert? then entered else NO_ALERT)
  }

  /** The row after an applied update. */
  function UpdatedRow(row: Row, candidate: Item, threshold: Option<nat>, source: Source): (Row, Option<Signal>) {
    var preserved := if ClearsDeletion(source) then None else row.deletedAt;
    var alertClass := if candidate.active && preserved.None? then ClassOf(candidate, threshold) else Healthy;
    var (next, signal) := NextIncident(row, alertClass, source);
    var at := if source.Webhook? then source.receivedAt else source.now;
    (next.(item := candidate.(id := row.item.id),
           lastWebhookAt := if source.Webhook? then Some(source.receivedAt) else row.lastWebhookAt,
           deletedAt := if candidate.active then preserved else Some(at)),
     signal)
  }

  /** `applyProjection` on the row of the candidate's item. */
  function ApplyRow(existing: Option<Row>, candidate: Item, threshold: Option<nat>, authoritative: bool,
                    source: Source): (Option<Row>, Decision, Option<Signal>)
  {
    match existing
    case None =>
      if !candidate.active then (None, Apply, None)
      else
        var alertClass := ClassOf(candidate, threshold);
        var row := CreatedRow(candidate, alertClass, source);
        (Some(row), Apply, EntrySignal(candidate.id, row.generation, alertClass, source))
    case Some(row) =>
      var decision := DecideOn(row, candidate, authoritative, source);
      if !decision.Apply? then (existing, decision, ReplaySignal(row, source))
      else
        var (next, signal) := UpdatedRow(row, candidate, threshold, source);
        (Some(next), decision, signal)
  }

  // Deletions and thresholds

  /** The rows a delete marks: the item and its variations, unless something newer is known of them. */
  predicate DeleteHits(row: Row, id: ItemId, deletedModifiedAt: Option<int>, receivedAt: int) {
    && (row.item.id == id || row.item.parent == Some(id))
    && (deletedModifiedAt.Some? ==> row.item.modifiedAt <= deletedModifiedAt.value)
    && (row.lastWebhookAt.Some? ==> row.lastWebhookAt.value <= receivedAt)
  }

  function DeletedRow(row: Row, receivedAt: int): Row {
    row.(deletedAt := Some(receivedAt), lastWebhookAt := Some(receivedAt), alertClass := Healthy, low := NO_ALERT,
         out := NO_ALERT)
  }

  /** SQL comparison: unknown when the quantity is. */
  function SqlAtMost(quantity: Option<real>, threshold: nat): Option<bool> {
    if quantity.None? then None else Some(quantity.value <= threshold as real)
  }

  /** The CASE expression of `rebaselineInventory`: a branch is taken only when its condition is true. */
  function RebaselineClass(item: Item, threshold: Option<nat>): AlertClass {
    if item.status.OutOfStock? then OutOfStockAlert
    else if threshold.Some? && item.managesStock && SqlAtMost(item.quantity, threshold.value) == Some(true) then
      LowStock
    else Healthy
  }

  function RebaselinedRow(row: Row, threshold: Option<nat>): Row {
    var next := RebaselineClass(row.item, threshold);
    if row.deletedAt.Some? || row.alertClass == next then row
    else
      row.(alertClass := next,
           generation := row.generation + if row.alertClass.Healthy? && !next.Healthy? then 1 else 0,
           low := NO_ALERT, out := NO_ALERT)
  }

  lemma SqlAgrees(item: Item, threshold: Option<nat>)
    ensures RebaselineClass(item, threshold) == ClassOf(item, threshold)
  {
  }

  /** `captureRecipients`. */
  predicate Captures(row: Row, s: Signal) {
    && row.generation == s.generation
    && (if s.level.Low? then row.low == Alert(Some(s.source), None) else row.out == Alert(Some(s.source), None))
  }

  function CapturedRow(row: Row, s: Signal, now: int): Row {
    if !Captures(row, s) then row
    else if s.level.Low? then row.(low := row.low.(capturedAt := Some(now)))
    else row.(out := row.out.(capturedAt := Some(now)))
  }

  // The store's inventory as a state machine

  datatype Action =
    | ApplyProjection(candidate: Item, authoritative: bool, source: Source)
    | MarkDeleted(id: ItemId, deletedModifiedAt: Option<int>, receivedAt: int)
    | SetThreshold(threshold: Option<nat>)
    | Capture(signal: Signal, now: int)

  function RowOf(s: Inventory, id: ItemId): Option<Row> {
    if id in s.rows then Some(s.rows[id]) else None
  }

  function Put(s: Inventory, id: ItemId, row: Option<Row>): Inventory {
    if row.Some? then s.(rows := s.rows[id := row.value]) else s
  }

  function MarkDeletedRows(rows: map<ItemId, Row>, id: ItemId, deletedModifiedAt: Option<int>,
                           receivedAt: int): map<ItemId, Row>
  {
    map k | k in rows ::
      if DeleteHits(rows[k], id, deletedModifiedAt, receivedAt) then DeletedRow(rows[k], receivedAt) else rows[k]
  }

  function RebaselinedRows(rows: map<ItemId, Row>, threshold: Option<nat>): map<ItemId, Row> {
    map k | k in rows :: RebaselinedRow(rows[k], threshold)
  }

  function Step(s: Inventory, a: Action): (Inventory, Option<Signal>) {
    match a
    case ApplyProjection(candidate, authoritative, source) =>
      var (row, _, signal) := ApplyRow(RowOf(s, candidate.id), candidate, s.threshold, authoritative, source);
      (Put(s, candidate.id, row), signal)
    case MarkDeleted(id, deletedModifiedAt, receivedAt) =>
      (s.(rows := MarkDeletedRows(s.rows, id, deletedModifiedAt, receivedAt)), None)
    case SetThreshold(threshold) =>
      if threshold == s.threshold then (s, None)
      else (Inventory(threshold, RebaselinedRows(s.rows, threshold)), None)
    case Capture(signal, now) =>
      if signal.item !in s.rows then (s, None)
      else (s.(rows := s.rows[signal.item := CapturedRow(s.rows[signal.item], signal, now)]), None)
  }

  predicate ValidAction(a: Action) {
    a.ApplyProjection? ==> ValidItem(a.candidate)
  }

  /** The stored class is the classifier's, a deleted row is healthy, and a healthy row has no alert. */
  predicate ValidRow(row: Row, id: ItemId, threshold: Option<nat>) {
    && row.item.id == id
    && row.alertClass == (if row.deletedAt.Some? then Healthy else ClassOf(row.item, threshold))
    && (row.deletedAt.None? ==> row.item.active && (row.item.managesStock || row.item.status.OutOfStock?))
    && (row.alertClass.Healthy? ==> row.low == NO_ALERT && row.out == NO_ALERT)
    && (row.low.capturedAt.Some? ==> row.low.source.Some?)
    && (row.out.capturedAt.Some? ==> row.out.source.Some?)
    && (!row.alertClass.Healthy? ==> row.generation > 0)
  }

  ghost predicate Inv(s: Inventory) {
    forall id | id in s.rows :: ValidRow(s.rows[id], id, s.threshold)
  }

  lemma ApplyKeepsRow(existing: Option<Row>, candidate: Item, threshold: Option<nat>, authoritative: bool,
                      source: Source)
    requires ValidItem(candidate)
    requires existing.Some? ==> ValidRow(existing.value, candidate.id, threshold)
    ensures var row := ApplyRow(existing, candidate, threshold, authoritative, source).0;
            row.Some? ==> ValidRow(row.value, candidate.id, threshold)
  {
  }

  lemma StepKeepsInv(s: Inventory, a: Action)
    requires Inv(s) && ValidAction(a)
    ensures Inv(Step(s, a).0)
  {
    match a
    case ApplyProjection(candidate, authoritative, source) =>
      ApplyKeepsRow(RowOf(s, candidate.id), candidate, s.threshold, authoritative, source);
    case SetThreshold(threshold) =>
      forall id | id in s.rows && threshold != s.threshold
        ensures ValidRow(RebaselinedRow(s.rows[id], threshold), id, threshold)
      {
        SqlAgrees(s.rows[id].item, threshold);
      }
    case _ =>
  }

  function Run(s: Inventory, actions: seq<Action>): Inventory
    decreases |actions|
  {
    if actions == [] then s else Run(Step(s, actions[0]).0, actions[1..])
  }

  /** In every reachable state the stored classes are those of the current threshold, whoever wrote them. */
  lemma {:induction false} RunKeepsInv(s: Inventory, actions: seq<Action>)
    requires Inv(s) && forall a | a in actions :: ValidAction(a)
    ensures Inv(Run(s, actions))
    decreases |actions|
  {
    if actions != [] {
      StepKeepsInv(s, actions[0]);
      RunKeepsInv(Step(s, actions[0]).0, actions[1..]);
    }
  }

  // Incidents and signals

  /** A missing row counts as healthy. */
  function StoredClass(s: Inventory, id: ItemId): AlertClass {
    if id in s.rows then s.rows[id].alertClass else Healthy
  }

  function StoredGeneration(s: Inventory, id: ItemId): nat {
    if id in s.rows then s.rows[id].generation else 0
  }

  function Edge(before: AlertClass, after: AlertClass): nat {
    if before.Healthy? && !after.Healthy? then 1 else 0
  }

  /** How often the stored class of the item turned from healthy to alerting along a run. */
  function Edges(s: Inventory, actions: seq<Action>, id: ItemId): nat
    decreases |actions|
  {
    if actions == [] then 0
    else
      var next := Step(s, actions[0]).0;
      Edge(StoredClass(s, id), StoredClass(next, id)) + Edges(next, actions[1..], id)
  }

  lemma StepCountsEdge(s: Inventory, a: Action, id: ItemId)
    requires Inv(s) && ValidAction(a)
    ensures var next := Step(s, a).0;
            StoredGeneration(next, id) == StoredGeneration(s, id) + Edge(StoredClass(s, id), StoredClass(next, id))
  {
  }

  /** The incident counter is the number of healthy-to-alerting edges in the item's history. */
  lemma {:induction false} GenerationCountsEdges(s: Inventory, actions: seq<Action>, id: ItemId)
    requires Inv(s) && forall a | a in actions :: ValidAction(a)
    ensures StoredGeneration(Run(s, actions), id) == StoredGeneration(s, id) + Edges(s, actions, id)
    decreases |actions|
  {
    if actions != [] {
      StepKeepsInv(s, actions[0]);
      StepCountsEdge(s, actions[0], id);
      GenerationCountsEdges(Step(s, actions[0]).0, actions[1..], id);
    }
  }

  predicate Matches(row: Row, signal: Signal) {
    && row.item.id == signal.item && row.generation == signal.generation
    && (if signal.level.Low? then row.low.source else row.out.source) == Some(signal.source)
  }

  /** Every signal names the row's incident and its stored source; only webhooks signal, and only of alerting rows. */
  lemma SignalsMatch(s: Inventory, a: Action)
    requires Inv(s) && ValidAction(a)
    ensures var (next, signal) := Step(s, a);
            signal.Some? ==>
              && a.ApplyProjection? && a.source.Webhook? && signal.value.source == a.source.event
              && signal.value.item in next.rows && Matches(next.rows[signal.value.item], signal.value)
              && !next.rows[signal.value.item].alertClass.Healthy?
  {
  }

  /** A threshold change touches exactly the rows whose class it changes, and never their stock. */
  lemma RebaselineTouches(s: Inventory, threshold: Option<nat>, id: ItemId)
    requires Inv(s) && id in s.rows
    ensures var row, next := s.rows[id], Step(s, SetThreshold(threshold)).0;
            && id in next.rows && next.rows[id].item == row.item && next.rows[id].deletedAt == row.deletedAt
            && (next.rows[id] != row <==>
                  row.deletedAt.None? && ClassOf(row.item, threshold) != ClassOf(row.item, s.threshold))
            && (next.rows[id] != row ==>
                  && next.rows[id].alertClass == ClassOf(row.item, threshold)
                  && next.rows[id].low == Alert(None, None) && next.rows[id].out == Alert(None, None)
                  && next.rows[id].lastWebhookAt == row.lastWebhookAt)
  {
    SqlAgrees(s.rows[id].item, threshold);
  }

  // What one projection writes

  /**
   The classes, and how they move with the threshold: a higher one finds no fewer items low, and none more sold out.
  */
  lemma ClassMeans(item: Item, threshold: Option<nat>, higher: Option<nat>)
    ensures ClassOf(item, threshold) == OutOfStockAlert <==> item.status == OutOfStock
    ensures ClassOf(item, threshold) == LowStock <==>
              && item.status != OutOfStock && item.managesStock && item.quantity != None && threshold != None
              && item.quantity.value <= threshold.value as real
    ensures threshold == None || (higher != None && threshold.value <= higher.value) ==>
              && (ClassOf(item, threshold) == LowStock ==> ClassOf(item, higher) == LowStock)
              && (ClassOf(item, threshold) == OutOfStockAlert <==> ClassOf(item, higher) == OutOfStockAlert)
  {
  }

  /**
   When a candidate for an existing row is applied, and when a live read is asked for: a newer one always wins; an
   equally old one that differs wins only from a live read, and otherwise asks for one; a deleted row that the source
   may revive is revived by a live read of any age, and otherwise asks for one; but a bootstrap page never wins over a
   webhook's row unless it is newer.
  */
  lemma DecisionIff(row: Row, c: Item, authoritative: bool, source: Source)
    ensures var decision := DecideOn(row, c, authoritative, source);
            var newer, tie := c.modifiedAt > row.item.modifiedAt, c.modifiedAt == row.item.modifiedAt && c != row.item;
            var revives := row.deletedAt != None && (source.Baseline? || source.clearDeletion);
            var afterWebhook := source.Baseline? && row.lastWebhookAt != None;
            && (decision == Apply <==> newer || (!afterWebhook && authoritative && (tie || revives)))
            && (decision == Reconcile <==> !newer && !afterWebhook && !authoritative && (tie || revives))
  {
  }

  /** What an applied candidate leaves in the row, and that one not applied leaves the row. */
  lemma AppliedFields(row: Row, c: Item, threshold: Option<nat>, authoritative: bool, source: Source)
    requires c.id == row.item.id
    ensures var (next, decision, _) := ApplyRow(Some(row), c, threshold, authoritative, source);
            && next.Some? && decision == DecideOn(row, c, authoritative, source)
            && (decision != Apply ==> next.value == row)
            && (decision == Apply ==>
                  && next.value.item == c
                  && next.value.lastWebhookAt ==
                       (if source.Webhook? then Some(source.receivedAt) else row.lastWebhookAt)
                  && next.value.deletedAt ==
                       (if !c.active then Some(if source.Webhook? then source.receivedAt else source.now)
                        else if source.Baseline? || source.clearDeletion then None
                        else row.deletedAt)
                  && next.value.alertClass == if next.value.deletedAt == None then ClassOf(c, threshold) else Healthy)
  {
  }

  /** A row is created for an active item only, live, and in an incident from the start if its class alerts. */
  lemma CreatedFields(c: Item, threshold: Option<nat>, authoritative: bool, source: Source)
    ensures var (row, decision, signal) := ApplyRow(None, c, threshold, authoritative, source);
            && decision == Apply && (row.Some? <==> c.active)
            && (signal.Some? <==> c.active && source.Webhook? && ClassOf(c, threshold) != Healthy)
            && (row.Some? ==>
                  && row.value.item == c && row.value.deletedAt == None
                  && row.value.lastWebhookAt == (if source.Webhook? then Some(source.receivedAt) else None)
                  && row.value.alertClass == ClassOf(c, threshold)
                  && row.value.generation == (if ClassOf(c, threshold) == Healthy then 0 else 1)
                  && row.value.low.capturedAt == row.value.out.capturedAt == None
                  && (row.value.low.source.Some? <==> source.Webhook? && ClassOf(c, threshold) == LowStock)
                  && (row.value.out.source.Some? <==> source.Webhook? && ClassOf(c, threshold) == OutOfStockAlert))
  {
  }

  /**
   How an incident moves with the class. Becoming healthy ends it; falling from sold out to low, and staying, change no
   alert; every other move opens the alert of the new class, keeps or (when an incident starts) clears the other one,
   and signals if a webhook made it.
  */
  lemma IncidentMoves(row: Row, to: AlertClass, source: Source)
    ensures var (next, signal) := NextIncident(row, to, source);
            var entered := Alert(if source.Webhook? then Some(source.event) else None, None);
            && next == row.(alertClass := to, generation := next.generation, low := next.low, out := next.out)
            && (to == Healthy ==>
                  signal == None && next.low == next.out == Alert(None, None) && next.generation == row.generation)
            && (row.alertClass == to != Healthy ==> next == row)
            && (row.alertClass == OutOfStockAlert && to == LowStock ==>
                  signal == None && next == row.(alertClass := LowStock))
            && (row.alertClass == LowStock && to == OutOfStockAlert ==>
                  next == row.(alertClass := OutOfStockAlert, out := entered))
            && (row.alertClass == Healthy && to != Healthy ==>
                  && next.generation == row.generation + 1
                  && next.low == (if to == LowStock then entered else Alert(None, None))
                  && next.out == (if to == OutOfStockAlert then entered else Alert(None, None)))
            && (to != Healthy && row.alertClass != to && row.alertClass != OutOfStockAlert ==>
                  signal == if source.Baseline? then None
                            else Some(Signal(row.item.id, next.generation, if to == LowStock then Low else Out,
                                             source.event)))
  {
  }

  /** A webhook that is not applied, or does not move the class, repeats the signal its event stands for in the row. */
  lemma RepeatsSignal(row: Row, c: Item, threshold: Option<nat>, authoritative: bool, source: Source)
    requires DecideOn(row, c, authoritative, source) != Apply
    ensures var signal := ApplyRow(Some(row), c, threshold, authoritative, source).2;
            && (source.Baseline? ==> signal == None)
            && (source.Webhook? ==>
                  && (signal == Some(Signal(row.item.id, row.generation, Low, source.event)) <==>
                        row.low.source == Some(source.event))
                  && (signal == Some(Signal(row.item.id, row.generation, Out, source.event)) <==>
                        row.low.source != Some(source.event) && row.out.source == Some(source.event))
                  && (signal == None <==>
                        row.low.source != Some(source.event) && row.out.source != Some(source.event)))
  {
  }

  // The remote modification time

  /** The stored modification time falls exactly when an older live item reactivates a deleted row. */
  lemma ModifiedAtFallsIff(row: Row, candidate: Item, threshold: Option<nat>, authoritative: bool, source: Source)
    requires ValidRow(row, candidate.id, threshold)
    ensures var next := ApplyRow(Some(row), candidate, threshold, authoritative, source).0.value;
            next.item.modifiedAt < row.item.modifiedAt <==>
              && candidate.modifiedAt < row.item.modifiedAt && row.deletedAt.Some? && authoritative
              && ClearsDeletion(source) && !(source.Baseline? && row.lastWebhookAt.Some?)
  {
  }

  // Replays

  /** The flow of one webhook on its own item: apply the payload, and on a tie apply the live item. */
  function ProjectOwn(existing: Option<Row>, candidate: Item, live: Item, threshold: Option<nat>, source: Source):
      (Option<Row>, Option<Signal>)
  {
    var (row, decision, signal) := ApplyRow(existing, candidate, threshold, false, source);
    if !decision.Reconcile? then (row, signal)
    else
      var (again, _, liveSignal) := ApplyRow(row, live, threshold, true, source);
      (again, liveSignal)
  }

  /** Which item the flow applies to an existing row. */
  function Applied(row: Row, candidate: Item, live: Item, source: Source): Option<Item> {
    if DecideOn(row, candidate, false, source).Apply? then Some(candidate)
    else if DecideOn(row, candidate, false, source).Reconcile? && DecideOn(row, live, true, source).Apply? then
      Some(live)
    else None
  }

  /** The row is already marked with the event, at a level that a replay reports before the one now entered or left. */
  predicate ReplayDiffers(row: Row, applied: AlertClass, event: EventId) {
    || (row.alertClass.OutOfStockAlert? && applied.LowStock?
        && (row.low.source == Some(event) || row.out.source == Some(event)))
    || (row.alertClass.LowStock? && applied.OutOfStockAlert? && row.low.source == Some(event))
  }

  /** A reactivation of a deleted row for which the live item is older than the event's payload. */
  predicate ReactivatesFromOlder(row: Row, candidate: Item, live: Item, source: Source) {
    row.deletedAt.Some? && ClearsDeletion(source) && live.modifiedAt < candidate.modifiedAt <= row.item.modifiedAt
  }

  /** Projecting the same event again leaves the row as it is, exactly unless the live item is older than the event. */
  lemma ReplayLeavesRowIff(existing: Option<Row>, candidate: Item, live: Item, threshold: Option<nat>, source: Source)
    requires ValidItem(candidate) && ValidItem(live) && candidate.id == live.id && candidate.active
    requires source.Webhook? && (existing.Some? ==> ValidRow(existing.value, candidate.id, threshold))
    ensures var once := ProjectOwn(existing, candidate, live, threshold, source).0;
            ProjectOwn(once, candidate, live, threshold, source).0 == once
            <==> !(existing.Some? && ReactivatesFromOlder(existing.value, candidate, live, source))
  {
  }

  /** The signal class of the applied item, when the row stays deleted it is healthy. */
  function AppliedClass(row: Row, applied: Item, threshold: Option<nat>, source: Source): AlertClass {
    if applied.active && (ClearsDeletion(source) || row.deletedAt.None?) then ClassOf(applied, threshold) else Healthy
  }

  /** The second time the signal is read off the row. */
  lemma ReplayReadsRow(existing: Option<Row>, candidate: Item, live: Item, threshold: Option<nat>, source: Source)
    requires ValidItem(candidate) && ValidItem(live) && candidate.id == live.id && candidate.active
    requires source.Webhook? && (existing.Some? ==> ValidRow(existing.value, candidate.id, threshold))
    requires !(existing.Some? && ReactivatesFromOlder(existing.value, candidate, live, source))
    ensures var once := ProjectOwn(existing, candidate, live, threshold, source).0;
            once.Some? && ProjectOwn(once, candidate, live, threshold, source).1 == ReplaySignal(once.value, source)
  {
  }

  lemma AppliedSignalIff(row: Row, applied: Item, threshold: Option<nat>, source: Source)
    requires ValidRow(row, applied.id, threshold) && source.Webhook?
    ensures var (next, signal) := UpdatedRow(row, applied, threshold, source);
            ReplaySignal(next, source) == signal <==>
              !ReplayDiffers(row, AppliedClass(row, applied, threshold, source), source.event)
  {
  }

  /** Reactivated from an older live item, the row is updated again by the replay, from the event's own payload. */
  lemma ReactivationReplayIff(row: Row, candidate: Item, live: Item, threshold: Option<nat>, source: Source)
    requires ValidItem(candidate) && ValidItem(live) && candidate.id == live.id && candidate.active
    requires source.Webhook? && ValidRow(row, candidate.id, threshold)
             && ReactivatesFromOlder(row, candidate, live, source)
    ensures var (once, signal) := ProjectOwn(Some(row), candidate, live, threshold, source);
            ProjectOwn(once, candidate, live, threshold, source).1 == signal
            <==> ClassOf(candidate, threshold) == AppliedClass(row, live, threshold, source)
  {
  }

  /**
  Whether the replay returns the same signal: for a row reactivated from an older live item, when both items have the
  same class; otherwise unless the row was already marked with the event at a level the first pass left or passed.
  */
  predicate SameSignalExpected(existing: Option<Row>, candidate: Item, live: Item, threshold: Option<nat>,
                               source: Source)
    requires source.Webhook?
  {
    existing.None? ||
    var row := existing.value;
    if ReactivatesFromOlder(row, candidate, live, source) then
      ClassOf(candidate, threshold) == AppliedClass(row, live, threshold, source)
    else
      var applied := Applied(row, candidate, live, source);
      applied.None? || !ReplayDiffers(row, AppliedClass(row, applied.value, threshold, source), source.event)
  }

  /** Projecting the same event again returns the same signal exactly when expected. */
  lemma ReplaySameSignalIff(existing: Option<Row>, candidate: Item, live: Item, threshold: Option<nat>, source: Source)
    requires ValidItem(candidate) && ValidItem(live) && candidate.id == live.id && candidate.active
    requires source.Webhook? && (existing.Some? ==> ValidRow(existing.value, candidate.id, threshold))
    ensures var (once, signal) := ProjectOwn(existing, candidate, live, threshold, source);
            ProjectOwn(once, candidate, live, threshold, source).1 == signal
            <==> SameSignalExpected(existing, candidate, live, threshold, source)
  {
    if existing.Some? && ReactivatesFromOlder(existing.value, candidate, live, source) {
      ReactivationReplayIff(existing.value, candidate, live, threshold, source);
    } else {
      ReplayReadsRow(existing, candidate, live, threshold, source);
      if existing.Some? && Applied(existing.value, candidate, live, source).Some? {
        AppliedSignalIff(existing.value, Applied(existing.value, candidate, live, source).value, threshold, source);
      }
    }
  }

  // Capturing recipients

  function AlertAt(row: Row, level: Level): Alert {
    if level.Low? then row.low else row.out
  }

  /** The action captures recipients for the level of the item's row. */
  predicate CapturesNow(s: Inventory, a: Action, id: ItemId, level: Level) {
    a.Capture? && a.signal.item == id && a.signal.level == level && id in s.rows && Captures(s.rows[id], a.signal)
  }

  function CaptureCount(s: Inventory, actions: seq<Action>, id: ItemId, level: Level): nat
    decreases |actions|
  {
    if actions == [] then 0
    else (if CapturesNow(s, actions[0], id, level) then 1 else 0)
         + CaptureCount(Step(s, actions[0]).0, actions[1..], id, level)
  }

  /** The item keeps its stored class along the run. */
  predicate ClassStays(s: Inventory, actions: seq<Action>, id: ItemId)
    decreases |actions|
  {
    actions == [] ||
    var next := Step(s, actions[0]).0;
    StoredClass(next, id) == StoredClass(s, id) && ClassStays(next, actions[1..], id)
  }

  lemma CaptureStep(s: Inventory, a: Action, id: ItemId, level: Level)
    requires Inv(s) && ValidAction(a) && id in s.rows
    requires StoredClass(Step(s, a).0, id) == StoredClass(s, id)
    ensures id in Step(s, a).0.rows
    ensures AlertAt(s.rows[id], level).capturedAt.Some? ==>
              !CapturesNow(s, a, id, level) && AlertAt(Step(s, a).0.rows[id], level).capturedAt.Some?
    ensures CapturesNow(s, a, id, level) ==> AlertAt(Step(s, a).0.rows[id], level).capturedAt.Some?
  {
    if StoredClass(s, id).Healthy? {
      StepKeepsInv(s, a);
    }
  }

  /** As long as the class stays, recipients are captured at most once per level, however often events are replayed. */
  lemma {:induction false} CapturedOnce(s: Inventory, actions: seq<Action>, id: ItemId, level: Level)
    requires Inv(s) && id in s.rows && ClassStays(s, actions, id)
    requires forall a | a in actions :: ValidAction(a)
    ensures CaptureCount(s, actions, id, level) <= if AlertAt(s.rows[id], level).capturedAt.Some? then 0 else 1
    decreases |actions|
  {
    if actions != [] {
      StepKeepsInv(s, actions[0]);
      CaptureStep(s, actions[0], id, level);
      CapturedOnce(Step(s, actions[0]).0, actions[1..], id, level);
    }
  }

  // Alerts per incident

  /** A webhook takes the item's row into the class of the level from another class. */
  predicate Enters(s: Inventory, a: Action, id: ItemId, level: Level) {
    && a.ApplyProjection? && a.source.Webhook?
    && StoredClass(s, id) != ClassAt(level) && StoredClass(Step(s, a).0, id) == ClassAt(level)
    && !(level.Low? && StoredClass(s, id).OutOfStockAlert?)
  }

  function ClassAt(level: Level): AlertClass {
    if level.Low? then LowStock else OutOfStockAlert
  }

  function EntryCount(s: Inventory, actions: seq<Action>, id: ItemId, level: Level): nat
    decreases |actions|
  {
    if actions == [] then 0
    else (if Enters(s, actions[0], id, level) then 1 else 0)
         + EntryCount(Step(s, actions[0]).0, actions[1..], id, level)
  }

  /** Recipients of the level's alert are still to be captured. */
  predicate Open(s: Inventory, id: ItemId, level: Level) {
    id in s.rows && AlertAt(s.rows[id], level).source.Some? && AlertAt(s.rows[id], level).capturedAt.None?
  }

  /** Only an entry opens an alert, and a capture closes it. */
  lemma OpenStep(s: Inventory, a: Action, id: ItemId, level: Level)
    requires Inv(s) && ValidAction(a)
    ensures Open(Step(s, a).0, id, level) ==> Open(s, id, level) || Enters(s, a, id, level)
    ensures CapturesNow(s, a, id, level) ==> Open(s, id, level) && !Open(Step(s, a).0, id, level)
    ensures Enters(s, a, id, level) ==> Open(Step(s, a).0, id, level)
  {
  }

  /**
   In every run recipients of a level are captured at most once per entry, plus once for an alert open at its start.
  */
  lemma {:induction false} CapturesWithinEntries(s: Inventory, actions: seq<Action>, id: ItemId, level: Level)
    requires Inv(s) && forall a | a in actions :: ValidAction(a)
    ensures CaptureCount(s, actions, id, level) <=
              EntryCount(s, actions, id, level) + if Open(s, id, level) then 1 else 0
    decreases |actions|
  {
    if actions != [] {
      StepKeepsInv(s, actions[0]);
      OpenStep(s, actions[0], id, level);
      CapturesWithinEntries(Step(s, actions[0]).0, actions[1..], id, level);
    }
  }

  /**
  A signal of a step is that of an entry, made for the incident the row is then in, or it repeats what the row already
  says of the event.
  */
  lemma SignalIsEntryOrReplay(s: Inventory, a: Action)
    requires Inv(s) && ValidAction(a) && a.ApplyProjection?
    ensures var (next, signal) := Step(s, a);
            var id := a.candidate.id;
            && (signal.Some? ==>
                  || Enters(s, a, id, signal.value.level)
                  || (id in s.rows && ReplaySignal(s.rows[id], a.source) == signal))
            && (forall level | Enters(s, a, id, level) ::
                  signal == Some(Signal(id, StoredGeneration(next, id), level, a.source.event)))
  {
  }

  /** How often the stored class of the item left OUT along a run. */
  function LeaveCount(s: Inventory, actions: seq<Action>, id: ItemId): nat
    decreases |actions|
  {
    if actions == [] then 0
    else
      var next := Step(s, actions[0]).0;
      (if StoredClass(s, id).OutOfStockAlert? && !StoredClass(next, id).OutOfStockAlert? then 1 else 0)
      + LeaveCount(next, actions[1..], id)
  }

  /** No generation passes and OUT is not left: then the class stays OUT. */
  lemma {:induction false} StaysOut(s: Inventory, actions: seq<Action>, id: ItemId)
    requires StoredClass(s, id).OutOfStockAlert?
    ensures LeaveCount(s, actions, id) == 0 <==> OutThroughout(s, actions, id)
    decreases |actions|
  {
    if actions != [] && StoredClass(Step(s, actions[0]).0, id).OutOfStockAlert? {
      StaysOut(Step(s, actions[0]).0, actions[1..], id);
    }
  }

  predicate OutThroughout(s: Inventory, actions: seq<Action>, id: ItemId)
    decreases |actions|
  {
    StoredClass(s, id).OutOfStockAlert? && (actions == [] || OutThroughout(Step(s, actions[0]).0, actions[1..], id))
  }

  lemma {:induction false} EndsOut(s: Inventory, actions: seq<Action>, id: ItemId)
    requires OutThroughout(s, actions, id)
    ensures StoredClass(Run(s, actions), id).OutOfStockAlert? && EntryCount(s, actions, id, Out) == 0
    decreases |actions|
  {
    if actions != [] {
      EndsOut(Step(s, actions[0]).0, actions[1..], id);
    }
  }

  /**
  When OUT is signalled again: after a webhook has entered OUT, whatever happens in between, another webhook enters it
  a second time exactly when it finds the class elsewhere and leaves it at OUT. That takes a departure from OUT in
  between; without one, OUT is neither entered nor captured again, beyond the one capture of the first entry. Both
  entries belong to one incident exactly when the class was never healthy in between and the second finds it at LOW.
  */
  lemma SecondOutIff(s: Inventory, first: Action, between: seq<Action>, second: Action, id: ItemId)
    requires Inv(s) && ValidAction(first) && (forall a | a in between :: ValidAction(a)) && ValidAction(second)
    requires Enters(s, first, id, Out)
    ensures var entered := Step(s, first).0;
            var w := Run(entered, between);
            && Inv(w)
            && (Enters(w, second, id, Out) <==>
                  && second.ApplyProjection? && second.source.Webhook?
                  && !StoredClass(w, id).OutOfStockAlert? && StoredClass(Step(w, second).0, id).OutOfStockAlert?)
            && (Enters(w, second, id, Out) ==> LeaveCount(entered, between, id) > 0)
            && (Enters(w, second, id, Out) ==>
                  (StoredGeneration(Step(w, second).0, id) == StoredGeneration(entered, id)
                   <==> Edges(entered, between, id) == 0 && StoredClass(w, id).LowStock?))
            && (LeaveCount(entered, between, id) == 0 ==>
                  EntryCount(entered, between, id, Out) == 0 && CaptureCount(entered, between, id, Out) <= 1)
  {
    var entered := Step(s, first).0;
    StepKeepsInv(s, first);
    RunKeepsInv(entered, between);
    StaysOut(entered, between, id);
    GenerationCountsEdges(entered, between, id);
    StepCountsEdge(Run(entered, between), second, id);
    if LeaveCount(entered, between, id) == 0 {
      EndsOut(entered, between, id);
      CapturesWithinEntries(entered, between, id, Out);
    }
  }

  /**
  Across class changes it is not once: an out-of-stock row that becomes low and runs out again signals OUT a second
  time within the same incident, and its recipients are open to capture again.
  */
  lemma OutSignalledAgain(row: Row, low: Item, out: Item, threshold: Option<nat>, first: Source, second: Source)
    requires ValidRow(row, low.id, threshold) && row.alertClass.OutOfStockAlert? && low.active && out.active
             && low.id == out.id
    requires row.item.modifiedAt < low.modifiedAt < out.modifiedAt
    requires ClassOf(low, threshold).LowStock? && ClassOf(out, threshold).OutOfStockAlert?
    requires first.Webhook? && second.Webhook?
    ensures var (lowRow, _, silent) := ApplyRow(Some(row), low, threshold, false, first);
            var (outRow, _, signal) := ApplyRow(lowRow, out, threshold, false, second);
            && silent.None? && signal == Some(Signal(row.item.id, row.generation, Out, second.event))
            && outRow.Some? && Captures(outRow.value, signal.value)
  {
  }
}
