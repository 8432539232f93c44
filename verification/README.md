# Verification of the WCTM store mirror

The backend keeps a PostgreSQL copy of each connected shop's orders and stock and lets people work on it from Telegram.
Almost everything it does is a short conditional update whose affected-row count decides the next step, and any such
step may be repeated, delayed, interrupted or overtaken. This project writes those steps down in Dafny and proves what
survives any interleaving of them: which facts about the stored rows always hold, what happens at most once, what a
retry may change, and when two operations may be swapped.

How the models are built:

- Each transaction or guarded update is one step on the rows it touches, written as a function of the old row. The
  services' methods appear as classes whose methods are proved to have exactly the effect of those functions.
- Where requests interleave, a `World` holds the rows, every worker's private snapshot, and a log of what was sent or
  seen outside. A run is any sequence of actions; main results hold of every run. A worker may stop for good between
  any two of its steps.
- The clock, random bytes, remote reads and their failures are parameters.

Modules:

| module | part of the system |
|---|---|
| `Wrappers`, `Common`, `Lists`, `Utf16`, `Sweeps` | options, shared types, lists, UTF-16 text and sorting of keys, sweeping a table in key order |
| `NumberText`, `StringText`, `CanonicalJson` | the canonical JSON printer, with a parser that inverts it |
| `OrderPayload`, `OrderProjection`, `OrderMinimisation`, `OrderScrub`, `OrderMirror` | order fingerprints, the order mirror, minimal snapshots, scrubbing, and the service on the order table |
| `InventoryBootstrap`, `InventoryBootstrapProcessor` | the resumable leased scan of a store's catalogue |
| `InventoryItems`, `InventoryProjection` | inventory rows, alert incidents, thresholds and recipient capture |
| `Deliveries` | order and stock notifications |
| `OrderNotes`, `StatusWrites`, `OrderPaging` | notes, status changes and paging from Telegram |
| `Linking` | linking and unlinking Telegram identities |
| `Erasure`, `LedgerReplay` | erasing members, tenants and stores, and replaying the erasure ledger |
| `DayBounds` | bounds of a tenant's civil day |
| `WebhookCleanup` | removing the connector's remote webhooks |

## Assumptions

- Serializable transactions are atomic; the retry loops around them are not modelled.
- SHA-256 and HMAC determine what they are taken of (the `Digest` datatype). A stored inventory fingerprint stands for
  the projected item itself.
- Unique keys are those the code relies on: an item per store, an account per user and per Telegram identity, an action
  per callback reference, a status write per reference and target.
- A bootstrap starts at product page 1, variation page 1, no parents, not done, and scans a catalogue that does not
  change meanwhile. A parent without variations stands for one that is not found.
- A live order read returns the remote order as it is at the step that applies it; an event carries a snapshot the
  remote order has had.
- Order snapshots are JSONB columns (backend/prisma/schema.prisma:367-371): reading returns the stored value, but the
  members of its objects in any order; where the order matters it is JSONB's, by length of the key and then by its
  characters.
- The clock that the erasures of one ledger replay read never goes back.
- Dates are milliseconds, item ids the numbers they denote, and order ids ranked as the database orders them. In the
  order fingerprint the decimal millisecond text stands for the ISO text: both determine the date.
- Locale-aware key comparison is an arbitrary relation, since nothing may depend on it.
- Telegram's, WooCommerce's and the database's answers are arbitrary unless said otherwise.

## What turned out not to hold

- Erasing a member can undo another member's finished erasure. If a settings reference belongs to one and names the
  other as its target, the later erasure moves its expiry past the earlier deletion, which the completeness check
  rejects: `Erasure.ErasingAnotherIff` gives the exact condition, `Erasure.LaterErasureUndoes` the failing input.
- Hence a tenant's erasure can commit and fail its own check, exactly when it passes over a member that was complete
  from an earlier deletion and erases another one tied to it (`Erasure.EraseTenantCompleteIff`). For the same database
  the outcome depends on the order in which the members are listed, which the query leaves open
  (`Erasure.ListedFirstFails`, `Erasure.ListedLastWorks`).
- Hence too a second replay of a ledger can find something to do, or end in an error. It finds nothing exactly when the
  last erasure of what each entry names carries the entry's fingerprint and no member concerned was outlived by one tied
  to it (`LedgerReplay.SecondReplayIff`); two tied members in one ledger fail (`LedgerReplay.TiedMembersReplay`).
- A scrub of historical orders need not settle its own count. JSONB returns members in another order than the field lists
  in which the scrub writes them, and the scrub compares texts, so an order with a line that has a quantity and a total
  is counted and rewritten every time (`OrderScrub.JsonbRowsAreCounted`); the exact condition is
  `OrderScrub.ScrubCountsIff`, and over a table `OrderMirror.SecondScrubCounts`. Its content and fingerprint do settle.
- A deletion and a restoration of an order do not commute, not even with a current live read, unless the restoration's
  payload is older than the row (`OrderMirror.DeleteRestoreCommuteIff`).
- A stored OK of a status change does not mean that the store was asked: a worker kept from its call by an error finds
  the target set by somebody else and stores OK (`StatusWrites.OkWithoutCall`; `StatusWrites.StoredResultIsTrue` says
  what OK does mean, and exactly when it implies the call).
- Replaying a stock webhook need not return the same signal (`InventoryItems.ReplaySameSignalIff`) nor leave the row as
  it was (`InventoryItems.ReplayLeavesRowIff`); both say exactly when.
- An out-of-stock alert is signalled, and its recipients captured, once per entry into that class and not once per
  incident (`InventoryItems.CapturesWithinEntries`, `InventoryItems.SecondOutIff`; `InventoryItems.OutSignalledAgain`
  is the input).
- The stored modification time of an inventory row can fall (`InventoryItems.ModifiedAtFallsIff`).
- A note's recorded outcome can still change after it is stored, exactly while some worker is past the claim or about to
  mark it ambiguous (`OrderNotes.RecordFinalIff`; `OrderNotes.LastWriterDecides` is the input).
- A webhook cleanup that reports a failure may have removed one hook more than it counts, when the answer to a deletion
  is lost (`WebhookCleanup.RemoveOwnedWebhooks`).
- A tenant's day has no bounds when its zone skips the next civil day (`DayBounds.TenantDayBounds`).

## Model

| member | source | states |
|---|---|---|
| `NumberText.NumberRoundTrip` | backend/src/orders/order-payload.mapper.ts:246-252 | a finite number printed by `JSON.stringify`, in any of its four layouts, reads back as the same number |
| `StringText.QuoteRoundTrip` | backend/src/orders/order-payload.mapper.ts:246-252 | a quoted string reads back as the same code units, whatever escapes it needed and whatever follows |
| `CanonicalJson.SerializeRoundTrip` | backend/src/orders/order-payload.mapper.ts:241-268 | the canonical text of any value parses back to a value with the same canonical text, consuming exactly that text |
| `CanonicalJson.SerializeEqualIff` | backend/src/orders/order-payload.mapper.ts:241-268 | two values have the same canonical text exactly when they are the same value up to the order of object members |
| `CanonicalJson.CanonicalizeSameValue` | backend/src/orders/order-payload.mapper.ts:270-300 | canonicalizing fails exactly when printing does and otherwise keeps the value, however keys are compared |
| `CanonicalJson.CanonicalizeThenSerialize` | backend/src/orders/order-payload.mapper.ts:241-300 | canonicalizing first never changes the printed text or whether printing fails |
| `OrderPayload.FingerprintIff` | backend/src/orders/order-payload.mapper.ts:205-224 | two orders have the same fingerprint exactly when all twelve fields agree, snapshots up to member order |
| `OrderProjection.RunKeepsInv` | backend/src/orders/order-projection.service.ts:227-367 | in every run of remote changes, deliveries, live reads, deletions, scrubs and rereads the stored fingerprint is that of the stored order and the stored modification time never falls |
| `OrderProjection.ApplyMatches` | backend/src/orders/order-projection.service.ts:287-367 | a candidate at least as new as the row ends up in the row unless a live read is demanded, which an authoritative candidate never demands |
| `OrderProjection.ConvergesOnceProcessed` | backend/src/orders/order-projection.service.ts:122-225 | once the event of the last remote snapshot is processed the mirror has its content, and keeps it under any later deliveries, duplicates, live reads, deletions, rereads and scrubs that keep the value of the snapshots |
| `OrderProjection.ConvergesUnmarked` | backend/src/orders/order-projection.service.ts:122-225 | without deletions in the run the row ends up equal to the last snapshot and without a deletion mark |
| `OrderProjection.DeliveryMarks` | backend/src/orders/order-projection.service.ts:122-153 | a creation or an update leaves the deletion mark of a stored order as it is; a restoration that is applied clears it; a delivery is applied exactly when its payload is newer |
| `OrderProjection.TieAsksIff` | backend/src/orders/order-projection.service.ts:287-367 | a delivery asks for a live read exactly when its payload is as old as the row and would change it; the live read changes the row exactly when the two differ |
| `OrderProjection.NewOrder` | backend/src/orders/order-projection.service.ts:300-330 | an order nobody knows is stored as it comes |
| `OrderProjection.DeletionMarks` | backend/src/orders/order-projection.service.ts:227-285 | a deletion marks the row with its time unless a mark at least as late is stored, and changes nothing else of the order |
| `OrderProjection.MarkStays` | backend/src/orders/order-projection.service.ts:122-285 | in every run a mark disappears only at the delivery of a restoration or at a live read, and otherwise only grows |
| `OrderMirror.ProjectFollowsSteps` | backend/src/orders/order-projection.service.ts:122-225 | what the service does with an event is what the protocol steps do, and no other order's row is touched |
| `OrderMirror.OrderTable.ApplyCandidate` | backend/src/orders/order-projection.service.ts:287-367 | the create, preserve-deletion, decide and update transaction keeps every row in agreement with its fingerprint |
| `OrderMirror.OrderTable.DeleteOrder` | backend/src/orders/order-projection.service.ts:227-285 | the deletion transaction gives the row exactly the later of the two deletion times, touches no other row, and keeps every row valid |
| `OrderMirror.OrderTable.ProjectEvent` | backend/src/orders/order-projection.service.ts:122-153 | the whole event flow with its error codes, including reconciliation of a malformed payload that names its order |
| `OrderMirror.EventMarks` | backend/src/orders/order-projection.service.ts:122-153 | over the service's rows: a newer payload is stored, with the mark kept for a creation or update and cleared for a restoration; an older one changes nothing; one as old as the row is left to the live read unless the row holds it |
| `OrderMirror.ReadMarks` | backend/src/orders/order-projection.service.ts:155-225 | a live read is applied only to the order it was made for, clears the mark when it is as new as the row, and changes nothing when it fails or is older |
| `OrderMirror.EventFlow` | backend/src/orders/order-projection.service.ts:122-153 | other topics, payloads that name no order, malformed ones that do, and deletions: where each leads and what it answers |
| `OrderMirror.ReadFlow` | backend/src/orders/order-projection.service.ts:155-225 | the answers of a live read that fails, cannot be mapped, or returns another order; the rows stay |
| `OrderMirror.DeleteRestoreCommuteIff` | backend/src/orders/order-projection.service.ts:122-285 | for any live read, a deletion and a restoration give the same rows in either order exactly when the payload is older than the row, or as old while the live read returns nothing as new; otherwise the later event decides the mark, and with a failed read at equal times the deletion stays and the restoration ends in a failure |
| `OrderMinimisation.Minimising` | backend/src/privacy/pilot-data.service.ts:241-265 | minimising leaves only listed, displayable fields, and does not change the value of what is already minimal |
| `OrderMinimisation.CustomerKeeps` | backend/src/privacy/pilot-data.service.ts:233-249 | a minimised customer holds exactly the names and company of billing and the company and address of shipping, where they are text or finite numbers, with their values |
| `OrderMinimisation.LineItemsKeep` | backend/src/privacy/pilot-data.service.ts:250-255 | minimised line items are the lines in order, each with exactly its name, quantity and total |
| `OrderMinimisation.MinimisingUnchangedIff` | backend/src/privacy/pilot-data.service.ts:241-271 | minimising returns the identical snapshot exactly when its members are displayable and come in the order of the field lists |
| `OrderScrub.ScrubSettles` | backend/src/privacy/pilot-data.service.ts:231-290 | after a scrub, in whatever order the database returns members, the row is valid and minimal and a second scrub changes neither its value nor its fingerprint; it counts the row exactly when the members are not in field-list order |
| `OrderScrub.ScrubCountsIff` | backend/src/privacy/pilot-data.service.ts:231-290 | a scrub counts a row exactly when its two snapshots do not have the form in which a scrub writes them |
| `OrderScrub.JsonbRowsAreCounted` | backend/src/privacy/pilot-data.service.ts:231-290 | a row with a line that has a quantity and a total and comes in JSONB order is counted by every scrub |
| `OrderScrub.ScrubKeepsMirror` | backend/src/privacy/pilot-data.service.ts:231-290 | a scrub leaves the content of a mirrored order as it is |
| `OrderMirror.OrderTable.ScrubHistorical` | backend/src/privacy/pilot-data.service.ts:222-296 | the scrub takes the rows in id order, counts those it would write differently, replaces each by its scrubbed form when executing, and keeps every row valid |
| `OrderMirror.SecondScrubCounts` | backend/src/privacy/pilot-data.service.ts:222-296 | after a full scrub and a reread in any member order all rows are valid with settled fingerprints, and a second scrub counts exactly the rows returned in another form than a scrub writes |
| `InventoryBootstrap.UnitLeavesOneLess` | backend/src/queue/inventory-bootstrap.processor.ts:193-284 | a unit of work at any valid cursor leaves exactly one unit less to do |
| `InventoryBootstrap.ScanRule` | backend/src/inventory/inventory-payload.mapper.ts:70-100 | variations are scanned exactly for a variable product that lists a positive integer or its decimal text |
| `InventoryBootstrap.ParentsOnAre` | backend/src/queue/inventory-bootstrap.processor.ts:255-282 | a product page leaves as parents each of its products that needs a scan, once |
| `InventoryBootstrap.StepKeepsInv` | backend/src/queue/inventory-bootstrap.processor.ts:78-140 | claiming, loading, projecting, advancing, failing, releasing, resuming and crashing keep: a loaded snapshot is not newer than the row and equals its cursor at the same revision, and what the cursor has passed is projected |
| `InventoryBootstrap.ReadyMeansCovered` | backend/src/queue/inventory-bootstrap.processor.ts:193-344 | in every interleaving, READY means that every product and every variation of every parent that needs a scan was projected |
| `InventoryBootstrap.AdvancesAndUnitsLeft` | backend/src/queue/inventory-bootstrap.processor.ts:309-344 | advances made plus units left is always the length of a full scan, each revision advances at most once, and READY is reached exactly at the last advance |
| `InventoryBootstrap.FullScan` | backend/src/queue/inventory-bootstrap.processor.ts:199-283 | with distinct ids a full scan takes the product pages plus the variation pages of the parents that need a scan |
| `InventoryBootstrap.ReadyIsFinal` | backend/src/queue/inventory-bootstrap.scheduler.ts:93-125 | after READY nothing but the store's activity changes, whatever is retried or resumed |
| `InventoryBootstrap.LoneWorkerFinishes` | backend/src/queue/inventory-bootstrap.scheduler.ts:72-125 | from every reachable state, after any crash or failure, one worker alone can bring the scan to READY |
| `InventoryBootstrap.ReadyReachableIff` | backend/src/queue/inventory-bootstrap.processor.ts:193-284 | READY can be reached exactly when every item of a full scan can be mapped |
| `InventoryBootstrap.LeaseExcludes` | backend/src/queue/inventory-bootstrap.processor.ts:78-103 | after a claim at a time, in every run in which nothing gives the lease up, no job that comes within thirty seconds gets in, and the cursor does not move |
| `InventoryBootstrap.ClaimTakesIff` | backend/src/queue/inventory-bootstrap.processor.ts:78-103 | a job gets in exactly when it names the running scan's revision and no lease is younger than thirty seconds |
| `InventoryBootstrap.PageTurns` | backend/src/queue/inventory-bootstrap.processor.ts:193-344 | a worker projects its page item by item, fails on an item that cannot be mapped, and advances at the end exactly when the lease is still its own |
| `InventoryBootstrap.ControlSteps` | backend/src/queue/inventory-bootstrap.scheduler.ts:93-194 | what starting, resuming, noting an enqueueing, failing and giving a lease back do to the row, and under which guards |
| `InventoryBootstrapProcessor.BootstrapStore.Claim` | backend/src/queue/inventory-bootstrap.processor.ts:78-103 | the claim takes a row exactly when it is active, syncing, at the job's revision, and its lease is absent or thirty seconds old |
| `InventoryBootstrapProcessor.BootstrapStore.Advance` | backend/src/queue/inventory-bootstrap.processor.ts:309-344 | the cursor moves exactly under the worker's own lease and revision, and to the next revision without a lease |
| `InventoryBootstrapProcessor.BootstrapStore.ProcessOneUnit` | backend/src/queue/inventory-bootstrap.processor.ts:193-284 | one unit projects its page in order up to the first unmappable item, collects and de-duplicates the parents, and advances to the next cursor |
| `InventoryBootstrapProcessor.UnitMeans` | backend/src/queue/inventory-bootstrap.processor.ts:193-284 | a unit is done exactly when every item of its page can be mapped and the lease is still the worker's; what is projected and what the row is then, and after a failure |
| `InventoryBootstrapProcessor.BootstrapStore.Process` | backend/src/queue/inventory-bootstrap.processor.ts:69-140 | while a lease is younger than thirty seconds a job changes nothing and is answered as leased; an absent or expired one is claimed, one unit is worked, and the lease is given back on failure |
| `InventoryBootstrapProcessor.BootstrapStore.EnsureInitialized` | backend/src/queue/inventory-bootstrap.scheduler.ts:72-194 | an unstarted or failed scan resumes at its cursor under the next revision, and an enqueue failure is recorded |
| `InventoryBootstrapProcessor.NoScanStranded` | backend/src/queue/inventory-bootstrap.processor.ts:346-388 | a job turned away from a running scan either enqueues the scan's revision or leaves it to a worker whose lease has not expired |
| `InventoryBootstrapProcessor.UnitFollowsSteps` | backend/src/queue/inventory-bootstrap.processor.ts:193-284 | a unit of the processor is a run of the protocol |
| `InventoryBootstrapProcessor.UnitIsRun` | backend/src/queue/inventory-bootstrap.processor.ts:193-284 | the effect of the processor's unit is that of a run of the protocol |
| `InventoryItems.SqlAgrees` | backend/src/telegram/telegram-settings.service.ts:1097-1121 | the bulk update's three-valued CASE classifies every row as the pure classifier does |
| `InventoryItems.ClassMeans` | backend/src/inventory/inventory-payload.mapper.ts:199-225 | sold out, low and healthy in terms of status, quantity and threshold; a higher threshold finds no fewer items low and changes nothing for sold-out ones |
| `InventoryItems.RunKeepsInv` | backend/src/inventory/inventory-projection.service.ts:438-617 | in every run of webhooks, baselines, deletions, thresholds and captures a live row's stored class is the classifier's under the current threshold, deleted rows are healthy, and healthy rows hold no alert |
| `InventoryItems.GenerationCountsEdges` | backend/src/inventory/inventory-projection.service.ts:619-699 | the incident counter is the number of healthy-to-alerting edges in the item's history |
| `InventoryItems.SignalsMatch` | backend/src/inventory/inventory-projection.service.ts:480-728 | every signal matches the row's incident and stored source; baselines, deletions and thresholds emit none |
| `InventoryItems.RebaselineTouches` | backend/src/telegram/telegram-settings.service.ts:1097-1141 | a threshold change touches exactly the live rows whose class it changes, gives them the new class and clears their alerts, and never touches their stock |
| `InventoryItems.DecisionIff` | backend/src/inventory/inventory-projection.service.ts:516-561 | exactly when a candidate is applied, when a live read is asked for, and that a bootstrap page never wins over a webhook's row unless newer |
| `InventoryItems.AppliedFields` | backend/src/inventory/inventory-projection.service.ts:563-617 | what an applied candidate leaves in the row: item, webhook time, deletion mark and class; one not applied leaves the row |
| `InventoryItems.CreatedFields` | backend/src/inventory/inventory-projection.service.ts:470-514 | a row is created for an active item only, live, and in an incident from the start if its class alerts |
| `InventoryItems.IncidentMoves` | backend/src/inventory/inventory-projection.service.ts:619-699 | for every move between classes: which alerts are cleared, kept or opened, the incident number, and the signal |
| `InventoryItems.RepeatsSignal` | backend/src/inventory/inventory-projection.service.ts:701-728 | a webhook that is not applied repeats exactly the signal its event stands for in the row, the low one first |
| `InventoryItems.ModifiedAtFallsIff` | backend/src/inventory/inventory-projection.service.ts:533-561 | the stored modification time falls exactly when an older authoritative item reactivates a deleted row |
| `InventoryItems.ReplayLeavesRowIff` | backend/src/inventory/inventory-projection.service.ts:136-194 | projecting an event again leaves the row unchanged, exactly unless the live item it reactivates from is older than the event |
| `InventoryItems.ReplaySameSignalIff` | backend/src/inventory/inventory-projection.service.ts:563-728 | a second projection of an event returns the same signal exactly unless the row already carried the event at a level the first pass left or passed, or, for a row reactivated from an older live item, the event and the live item differ in class |
| `InventoryItems.CapturedOnce` | backend/src/queue/inventory-notification.scheduler.ts:146-189 | as long as the class stays, recipients are captured at most once per level, however often events are replayed |
| `InventoryItems.CapturesWithinEntries` | backend/src/queue/inventory-notification.scheduler.ts:146-189 | in every run recipients of a level are captured at most once per webhook entry into its class, plus once for an alert open at the start |
| `InventoryItems.SignalIsEntryOrReplay` | backend/src/inventory/inventory-projection.service.ts:480-728 | a signal is that of an entry into its class, for the incident the row is then in, or repeats what the row already says of the event |
| `InventoryItems.SecondOutIff` | backend/src/inventory/inventory-projection.service.ts:641-692 | after an entry into OUT and any run, a webhook enters OUT again exactly when it finds the class elsewhere and leaves it there, which takes a departure in between; it is the same incident exactly when the class was never healthy meanwhile; without a departure OUT is captured at most once |
| `InventoryItems.OutSignalledAgain` | backend/src/inventory/inventory-projection.service.ts:641-692 | the input: out of stock, low and out of stock again signals OUT twice in one incident and lets recipients be captured twice |
| `InventoryProjection.InventoryTable.ApplyProjection` | backend/src/inventory/inventory-projection.service.ts:438-617 | the projection transaction with its decision, incident and signal |
| `InventoryProjection.InventoryTable.ProjectWebhook` | backend/src/inventory/inventory-projection.service.ts:136-308 | the webhook flow with reconciliation, parent reconciliation of an inactive variation, and error codes |
| `InventoryProjection.InventoryTable.ProjectDeletion` | backend/src/inventory/inventory-projection.service.ts:310-436 | the deletion flow with its live read, which rebaselines an item that still exists |
| `InventoryProjection.ConfirmedDelete` | backend/src/inventory/inventory-projection.service.ts:360-435 | a delete that needs no live read or is confirmed by it marks a row exactly when it is the item or one of its variations, is not modified after the delete, and no later webhook has written it; every other row stays |
| `InventoryProjection.UnconfirmedDelete` | backend/src/inventory/inventory-projection.service.ts:360-406 | a delete that the live read does not confirm marks nothing: a failing read ends it, a live item is projected without a signal |
| `InventoryProjection.UnknownDelete` | backend/src/inventory/inventory-projection.service.ts:325-341 | a delete of an item nobody knows changes nothing and asks nobody |
| `InventoryProjection.TopicRevives` | backend/src/inventory/inventory-projection.service.ts:136-194 | a newer update of a deleted item leaves it deleted; a newer creation or restoration revives it |
| `InventoryProjection.TopicAsks` | backend/src/inventory/inventory-projection.service.ts:136-194 | a creation or restoration of a deleted item that is not newer is left to the live read |
| `InventoryProjection.MalformedAsks` | backend/src/inventory/inventory-projection.service.ts:218-243 | a payload that only names its item is left to the live read, which may revive it for a restoration only |
| `InventoryProjection.ActiveSignals` | backend/src/inventory/inventory-projection.service.ts:136-194 | a newer event of an active item returns the signal of its one transaction |
| `InventoryProjection.InactiveAsksParent` | backend/src/inventory/inventory-projection.service.ts:174-194 | after an inactive variation its parent is read live and both signals are returned |
| `InventoryProjection.NothingNamed` | backend/src/inventory/inventory-projection.service.ts:136-150 | other topics and payloads that name no item change nothing |
| `InventoryProjection.ReadsOnlyItsItem` | backend/src/inventory/inventory-projection.service.ts:245-308 | a live read is applied as authoritative exactly when it returns the item and parent it was made for, and changes no other row |
| `InventoryProjection.EventTouches` | backend/src/inventory/inventory-projection.service.ts:136-194 | an event touches no rows but those of the item it names and, for an inactive variation, of its parent |
| `InventoryProjection.InventoryTable.ChangeThreshold` | backend/src/telegram/telegram-settings.service.ts:287-314 | setting a threshold rebaselines in the same transaction, and setting the same one changes nothing |
| `InventoryProjection.InventoryTable.CaptureRecipients` | backend/src/queue/inventory-notification.scheduler.ts:146-189 | deliveries are created only by the call that captures an uncaptured alert of the signal's incident and source |
| `Deliveries.OneHolder` | backend/src/queue/order-notification.processor.ts:93-118 | in every run at most one worker is between its claim and its outcome |
| `Deliveries.FinalIsFinal` | backend/src/queue/order-notification.processor.ts:277-376 | delivered, terminal and ambiguous are never left, by any worker, retry exhaustion or erasure |
| `Deliveries.NoSendAfter` | backend/src/queue/order-notification.processor.ts:211-271 | after a message whose outcome is not retryable, or whose sender is gone, no other is sent in any run |
| `Deliveries.SendsAreRetries` | backend/src/queue/inventory-notification.processor.ts:92-117 | every message but the last had a retryable outcome, and there are at most as many messages as claims |
| `Deliveries.DeliveredWasSent` | backend/src/queue/inventory-notification.processor.ts:237-281 | DELIVERED means that the last message was delivered |
| `Deliveries.ClaimTimeIsRedundant` | backend/src/queue/order-notification.processor.ts:229-250 | the claim-time check never refuses an outcome that the state check lets through |
| `Deliveries.OutcomeIsRecorded` | backend/src/queue/order-notification.processor.ts:211-271 | in every run what Telegram answered to the worker that sent the message is what is recorded while the row is in flight: delivered, to be retried, terminal or ambiguous |
| `Deliveries.AttemptEnds` | backend/src/queue/order-notification.processor.ts:84-271 | a delivery that is pending or to be retried is sent by the next undisturbed worker and ends as answered; so every state is reached |
| `Deliveries.GivenUp` | backend/src/queue/order-notification.processor.ts:302-347 | who cannot claim a delivery gives it up as ambiguous exactly when it is in flight |
| `Deliveries.ErasureEnds` | backend/src/privacy/pilot-account.service.ts:688-721 | erasing the recipient ends every unfinished delivery and no finished one |
| `Deliveries.Delivery.Claim` | backend/src/queue/order-notification.processor.ts:93-118 | a claim takes exactly pending and retryable deliveries, counts the attempt and clears the failure |
| `Deliveries.Delivery.PersistOutcome` | backend/src/queue/inventory-notification.processor.ts:237-388 | the four outcomes lead to DELIVERED, RETRYABLE_FAILURE, TERMINAL_FAILURE and AMBIGUOUS, exactly when the row is in flight and, for a delivered message, of this claim |
| `OrderNotes.CalledAtMostOnce` | backend/src/telegram/telegram-order.service.ts:1203-1457 | in every interleaving the note is created at most once per reference, with the text of the first prepare, which is also the text of every accepted prepare |
| `OrderNotes.CancelledNeverCalled` | backend/src/telegram/telegram-order.service.ts:1177-1200 | once a cancel is answered CANCELLED the note has not been and never will be created |
| `OrderNotes.PrepareTakes` | backend/src/telegram/telegram-order.service.ts:1090-1127 | an unexpired fresh reference takes any note; once it has one, exactly the same is accepted again |
| `OrderNotes.CancelTakesIff` | backend/src/telegram/telegram-order.service.ts:1177-1200 | a cancel takes effect exactly when nobody has claimed the reference and it has not expired |
| `OrderNotes.ConfirmReadsIff` | backend/src/telegram/telegram-order.service.ts:1203-1300 | exactly what confirming requires of the reference, its text and its fingerprint |
| `OrderNotes.ConfirmCreates` | backend/src/telegram/telegram-order.service.ts:1203-1457 | confirmed by one undisturbed worker, a prepared note is created with its text, and the answer is recorded |
| `OrderNotes.ReplayGivesUpIff` | backend/src/telegram/telegram-order.service.ts:1839-1888 | a replay marks an action ambiguous exactly when it has been in flight without an answer for a minute |
| `OrderNotes.ExpiryClears` | backend/src/telegram/telegram-order.service.ts:1889-1905 | exactly the texts of expired references that were never claimed are dropped |
| `OrderNotes.ErasureClears` | backend/src/privacy/pilot-account.service.ts:646-674 | an erasure leaves no text, fingerprint or stored answer and closes the reference |
| `OrderNotes.SucceededWasConfirmed` | backend/src/telegram/telegram-order.service.ts:1373-1437 | a recorded success means that the note was created and confirmed |
| `OrderNotes.RecordFinalIff` | backend/src/telegram/telegram-order.service.ts:1839-1933 | a stored outcome is unchanged by every run without erasure exactly when no worker is past the claim and none is about to mark an action that is not yet ambiguous |
| `OrderNotes.LastWriterDecides` | backend/src/telegram/telegram-order.service.ts:1839-1933 | the input: with a confirmed answer and a replay that read the action as overdue, SUCCEEDED or AMBIGUOUS is recorded depending on who writes last |
| `OrderNotes.SlowAnswerRaces` | backend/src/telegram/telegram-order.service.ts:1866-1880 | that race arises whenever the answer takes a minute and someone asks meanwhile |
| `OrderNotes.NoteReference.Prepare` | backend/src/telegram/telegram-order.service.ts:1090-1117 | the guarded update of a prepare and its second look: a second prepare is accepted only with the same text |
| `OrderNotes.NoteReference.Cancel` | backend/src/telegram/telegram-order.service.ts:1177-1200 | the guarded update of a cancel |
| `OrderNotes.NoteReference.Claim` | backend/src/telegram/telegram-order.service.ts:1321-1372 | the claim and the unique action row are taken together, exactly from an unclaimed unexpired prepared reference, or not at all |
| `StatusWrites.TransitionsAreCore` | backend/src/telegram/telegram-order.service.ts:57-65 | no status is offered to itself, and only core statuses other than failed are offered |
| `StatusWrites.OfferedFrom` | backend/src/telegram/telegram-order.service.ts:57-65 | the transition table read the other way round: from which statuses each target is offered |
| `StatusWrites.UpdatedAtMostOnce` | backend/src/telegram/telegram-order.service.ts:1532-1768 | over all targets and concurrent requests the store is asked at most once, for a target offered when the reference was made and allowed from the live status just read |
| `StatusWrites.StoredResultIsTrue` | backend/src/telegram/telegram-order.service.ts:1718-1768 | a stored OK means that the store showed the target after the write row was created, and that it was asked for it exactly unless an error kept the worker from the call; a stored NO_OP means that it showed the target |
| `StatusWrites.OkWithoutCall` | backend/src/telegram/telegram-order.service.ts:2090-2126 | the input: a worker kept from its call reads the target set by somebody else and stores OK |
| `StatusWrites.OneTarget` | backend/src/telegram/telegram-order.service.ts:1658-1671 | the first target claimed stays the only one ever written |
| `StatusWrites.RequestGetsOnIff` | backend/src/telegram/telegram-order.service.ts:1570-1671 | exactly which requests pass the check of the offer, of the live status and of the claim |
| `StatusWrites.RequestIsTaken` | backend/src/telegram/telegram-order.service.ts:1570-1700 | an undisturbed request for an offered target that the live status allows claims the reference and gets its write row |
| `StatusWrites.RequestIsCarriedOut` | backend/src/telegram/telegram-order.service.ts:1718-1768 | undisturbed from there the store is asked once and the answer stored; a lost answer is replaced by another read |
| `StatusWrites.ShownIsStored` | backend/src/telegram/telegram-order.service.ts:1735-1768 | OK is stored exactly when the worker of the write row was shown the target last and the order is still mirrored and not deleted |
| `StatusWrites.NothingToDo` | backend/src/telegram/telegram-order.service.ts:1705-1716 | a target that the store shows already is stored as NO_OP without a call |
| `StatusWrites.ErasureForgets` | backend/src/privacy/pilot-account.service.ts:675-679 | an erasure forgets the answers and keeps the write rows |
| `StatusWrites.StatusReference.Begin` | backend/src/telegram/telegram-order.service.ts:1570-1720 | which requests are answered at once, and that the others have claimed the reference and created the write row |
| `OrderPaging.ReachableRenders` | backend/src/telegram/telegram-order.service.ts:554-660 | every reachable cursor renders the page at its offset, with neighbour links exactly when there is something to show within the cap |
| `OrderPaging.AnyWalkRenders` | backend/src/telegram/telegram-order.service.ts:530-660 | after any mix of next, previous and back links the page shown is the page at the cursor's offset |
| `OrderPaging.ThereAndBack` | backend/src/telegram/telegram-order.service.ts:598-650 | next and previous undo each other, and the back cursor shows the same page |
| `OrderPaging.ListsTheFirst` | backend/src/telegram/telegram-order.service.ts:2247-2291 | next links list exactly the first min(n, 200) orders, without gap or repeat |
| `OrderPaging.NextNeverRepeats` | backend/src/telegram/telegram-order.service.ts:2247-2291 | even if the table is another one at every page, keys strictly descend along next links and at most 200 are shown |
| `OrderPaging.NewestFirst` | backend/src/telegram/telegram-order.service.ts:2247-2291 | what next links list, over any tables, comes newest first, and among equal times the larger id first |
| `OrderPaging.BeforeMeans` | backend/src/telegram/telegram-order.service.ts:2247-2291 | the order by which pages are asked for: creation time, then id, both descending, total |
| `Linking.OpenChats` | backend/src/telegram/telegram-linking.service.ts:241-380 | in every reachable state deleted accounts have only revoked chats, and an open chat was last opened with a token of its account's user |
| `Linking.IdentityMovesWhenUnlinked` | backend/src/telegram/telegram-linking.service.ts:241-262 | a Telegram identity moves to another user only when it is unlinked, with all its chats revoked |
| `Linking.ConsumedOnce` | backend/src/telegram/telegram-linking.service.ts:318-333 | each token is consumed at most once |
| `Linking.LinkedOpensChat` | backend/src/telegram/telegram-linking.service.ts:335-380 | a successful redemption opens the chat for the token's user on the identity that asked |
| `Linking.RedeemLinksIff` | backend/src/telegram/telegram-linking.service.ts:202-333 | a redemption succeeds exactly when the identities do not contradict what is stored and the token is unused, unexpired, leads to an active store and a chat that is new or the account's own, or the same update has used it before; a refusal changes nothing |
| `Linking.RedeemWrites` | backend/src/telegram/telegram-linking.service.ts:318-380 | what a redemption writes to the token, the account and the chat, and that it leaves everything else |
| `Linking.RedeemIsRepeatable` | backend/src/telegram/telegram-linking.service.ts:266-293 | repeating a redemption answers the same and changes nothing, at any later time |
| `Linking.UnlinkClosesChats` | backend/src/telegram/telegram-linking.service.ts:142-200 | unlinking revokes every chat of the account, and repeating it changes nothing |
| `Linking.UnlinkIff` | backend/src/telegram/telegram-linking.service.ts:142-200 | unlinking succeeds exactly from a chat of the identity's own account, once, or again with the same update, and what it writes |
| `Linking.LinkTables.RedeemInTransaction` | backend/src/telegram/telegram-linking.service.ts:202-383 | the redemption transaction with all its refusals keeps accounts unique and the invariant above |
| `Linking.LinkTables.UnlinkAccount` | backend/src/telegram/telegram-linking.service.ts:142-200 | the unlink transaction |
| `Erasure.AnonymousTelegramId` | backend/src/privacy/pilot-account.service.ts:26-28 | the replacement id is negative and fits 62 bits |
| `Erasure.EraseThenComplete` | backend/src/privacy/pilot-account.service.ts:616-796 | after an erasure commits the completeness check succeeds for the same target, with and without the email fingerprint |
| `Erasure.ErasureKeeps` | backend/src/privacy/pilot-account.service.ts:616-796 | erasing a member touches no row of anybody else, and of a member with other tenants nothing that belongs to those; it adds one audit row |
| `Erasure.OwnRows` | backend/src/privacy/pilot-account.service.ts:637-725 | of the member's own rows it changes what identifies or reaches the person and not what they are about; finished deliveries keep their state |
| `Erasure.OwnChats` | backend/src/privacy/pilot-account.service.ts:722-790 | the chats of an erased person are revoked: all of them under a new id, or those in use for this tenant with theirs |
| `Erasure.CompleteMeans` | backend/src/privacy/pilot-account.service.ts:341-545 | what a successful completeness check promises, table by table |
| `Erasure.TenantCompleteMeans` | backend/src/privacy/pilot-account.service.ts:547-605 | what a successful check of a tenant promises |
| `Erasure.ErasingAnotherIff` | backend/src/privacy/pilot-account.service.ts:341-545 | erasing another member undoes a complete erasure exactly when it is later and a settings reference ties the two |
| `Erasure.LaterErasureUndoes` | backend/src/privacy/pilot-account.service.ts:639-646 | two tied members erased one after the other leave the first incomplete |
| `Erasure.EraseTenantCompleteIff` | backend/src/privacy/pilot-account.service.ts:253-336 | after a tenant's erasure its check succeeds exactly unless the erasure passed over a member complete from an earlier deletion and erased another one tied to it |
| `Erasure.ListedFirstFails` | backend/src/privacy/pilot-account.service.ts:272-293 | the input: an erased member listed before one tied to it is passed over, and the check of the erased tenant fails |
| `Erasure.ListedLastWorks` | backend/src/privacy/pilot-account.service.ts:272-293 | the same database listed the other way round: the member is erased again, and the check succeeds |
| `Erasure.TenantErasureKeeps` | backend/src/privacy/pilot-account.service.ts:253-336 | erasing a tenant touches nothing but the tenant, the chats in use for it, and what is of the members it erases |
| `Erasure.ClosedChats` | backend/src/privacy/pilot-account.service.ts:295-298 | exactly the chats in use for an erased tenant or a disconnected store are closed |
| `Erasure.StoreKeepsComplete` | backend/src/privacy/pilot-data.service.ts:73-140 | disconnecting and erasing a store undoes no member's erasure |
| `Erasure.StoreErasureKeeps` | backend/src/privacy/pilot-data.service.ts:73-140 | disconnecting and erasing a store touches nothing but the store and what is of it |
| `Erasure.StoreErasureCleans` | backend/src/privacy/pilot-data.service.ts:299-373 | afterwards no text of its notes, searches, actions and answers is left, its address is gone and no chat is in use for it |
| `LedgerReplay.TurnKeepsSettled` | backend/src/privacy/pilot-data.cli.ts:331-447 | with one fingerprint per member and tenant and no ties it always does |
| `LedgerReplay.SecondReplayIff` | backend/src/privacy/pilot-data.cli.ts:322-450 | if a replay with execution finishes, a second one at any time, executing or not, finds nothing pending exactly when every entry's last erasure carries its fingerprint and no member concerned was outlived during the replay by one tied to it |
| `LedgerReplay.TurnKeepsSettledIff` | backend/src/privacy/pilot-data.cli.ts:331-447 | erasing for one entry keeps another settled entry settled exactly when that entry's last erasure still carries its fingerprint and none of its members is outlived by a tied member just erased |
| `LedgerReplay.SecondReplayFindsNothing` | backend/src/privacy/pilot-data.cli.ts:322-450 | on a ledger with one fingerprint per member and tenant, and a database without ties, the second replay finds nothing |
| `LedgerReplay.TiedMembersReplay` | backend/src/privacy/pilot-data.cli.ts:322-450 | the input: two tied members in one ledger, both erased by the first replay; a second one does not find nothing, and ends in an error when the first member belongs to no other tenant |
| `LedgerReplay.ReplayTouches` | backend/src/privacy/pilot-data.cli.ts:322-450 | a replay, finished or stopped anywhere, touches nothing but what its entries name and the members it erases |
| `LedgerReplay.DryReplay` | backend/src/privacy/pilot-data.cli.ts:322-450 | without execution a replay changes nothing, ends in an error exactly when an entry is neither complete nor matched by the restored data, and otherwise counts the incomplete entries |
| `LedgerReplay.ErasesWhatWasCounted` | backend/src/privacy/pilot-data.cli.ts:322-450 | with execution it erases at most what it counts without, when each entry that was complete beforehand still stands when its turn comes |
| `LedgerReplay.PrivacyService.EraseMember` | backend/src/privacy/pilot-account.service.ts:238-251 | a member is erased only when present with the expected email; then the check succeeds and nothing of anybody else has changed |
| `LedgerReplay.EntryMeans` | backend/src/privacy/pilot-data.cli.ts:331-447 | what counts as done and as matching for each kind of entry, in the tables' own terms |
| `LedgerReplay.ExecutingTurn` | backend/src/privacy/pilot-data.cli.ts:331-447 | exactly which entries an executing replay skips, erases and stops at; a tenant only after all its stores |
| `LedgerReplay.PrivacyService.EraseWholeTenant` | backend/src/privacy/pilot-account.service.ts:253-336 | the loop over members passes over the complete ones and erases the rest, all or nothing, with the exact condition for the check afterwards |
| `LedgerReplay.PrivacyService.EraseStore` | backend/src/privacy/pilot-data.service.ts:299-373 | a store is erased only after a disconnect, then counts as erased and no longer resolves to its address, and no member's erasure is undone |
| `LedgerReplay.PrivacyService.ReplayEntries` | backend/src/privacy/pilot-data.cli.ts:322-450 | the loop itself: the error ends it at the first entry that stops, and what was erased before stays erased |
| `LedgerReplay.PrivacyService.ReplayLedger` | backend/src/privacy/pilot-data.cli.ts:322-450 | the replay loop with its count; without execution what is counted and when it ends in an error; with execution which entries are settled afterwards |
| `DayBounds.NextDayNumber` | backend/src/telegram/telegram-search-report.service.ts:967-971 | the civil day after has the next day number, across months, years and leap days |
| `DayBounds.EarlierIff` | backend/src/telegram/telegram-search-report.service.ts:980-986 | dates compare as their day numbers do |
| `DayBounds.FirstInstantOfDate` | backend/src/telegram/telegram-search-report.service.ts:973-993 | the binary search ends at a crossing into the date, and in a regular zone at its least instant; the error means the zone has no such day |
| `DayBounds.TenantDayBounds` | backend/src/telegram/telegram-search-report.service.ts:940-952 | an instant lies in the bounds exactly when its local date is the local date, and bounds exist exactly when the zone has the next civil day |
| `DayBounds.BoundsAbutIff` | backend/src/telegram/telegram-search-report.service.ts:940-952 | bounds computed for two instants abut exactly when the second local date is the day after the first, are equal for equal dates, and are in order otherwise |
| `WebhookCleanup.Enumerate` | backend/src/privacy/woo-webhook-cleanup.ts:48-100 | the page loop collects exactly the owned ids, or gives up exactly when a listing fails, a hook is foreign, or there are a thousand hooks or more |
| `WebhookCleanup.OwnedIff` | backend/src/privacy/woo-webhook-cleanup.ts:60-100 | which hooks are the connector's own, by topic, name, id and address, and which make it give up |
| `WebhookCleanup.ExactlyOwnedRemoved` | backend/src/privacy/woo-webhook-cleanup.ts:101-114 | with unique remote ids a complete cleanup removes the owned hooks and nothing else |
| `WebhookCleanup.GoneMeans` | backend/src/privacy/woo-webhook-cleanup.ts:101-119 | one hook more than counted is gone exactly when the deletion that failed was carried out and its answer lost |
| `WebhookCleanup.RemoveOwnedWebhooks` | backend/src/privacy/woo-webhook-cleanup.ts:21-120 | when the cleanup is complete, that giving up during enumeration deletes nothing, and which hooks are left after any outcome, including a deletion whose answer was lost |

## Left out

- Retry loops and optimistic guards around serializable transactions: a transaction is one step.
- Queues and their liveness: a job may run at any time, any number of times.
- HTTP, dependency injection, configuration, logging, tokens' signatures, roles and entitlements: a validated request is
  the input, and a refusal by a policy is one of the outcomes a worker may meet.
- Mapping of raw WooCommerce payloads, apart from the active rule, the identifier rule and the variation-scan rule: a
  payload is a mapped value or an error that may still name its item.
- Decimal rounding of stock quantities: quantities are exact.
- The store, the context and the order must be found when a request begins; that they are not only refuses more requests.
- Columns that no decision reads, such as sync and completion times.
- The webhook-event half of the historical scrub, and the order, event and item rows of a store's erasure.
- Cancelling or preparing a note: the reads before the guarded update only refuse more requests and are not modelled.
- One-time consumption of a settings reference, recipient selection and the other settings: single guarded updates.
- Order search, reports, localisation and rendering.
- Time-zone data: a zone is any function from instants to dates, regular where said. Date texts are compared as dates,
  which is the same for four-digit years.
- Statuses that name an inherited property of a JavaScript object, for which the transition table is not a table.
- InventoryProjection.InventoryTable.ProjectDeletion: the parent under which the live read looks is the payload's or any
  concerned row's, since the code takes the first row in an unspecified order.
- LedgerReplay.SecondReplayFindsNothing: the readable case of SecondReplayIff, which needs neither of its two conditions.
- LedgerReplay.ErasesWhatWasCounted: compares replays that finish; one of the two may end in an error and the other not.
