/**
 The inventory bootstrap: a resumable scan over product pages and the variation pages of the parents found on them.

 The store's row carries a cursor, a revision and a lease. Every database statement of the processor and the
 scheduler is one step; workers hold a snapshot between steps, and any worker may crash or fail between any two.
*/
module InventoryBootstrap {
  import opened Common
  import opened Wrappers

  const PAGE_SIZE: nat := 25
  const LEASE_MS: nat := 30_000

  // The remote catalogue

  /** A member of an untyped payload array; numbers that are not integers are `Other`. */
  datatype RawId = Number(value: int) | Text(text: string) | Other

  /** A listed product or variation; `mappable` says whether its payload can be mapped. */
  datatype CatalogueItem = CatalogueItem(id: ItemId, mappable: bool, kind: string, variations: Option<seq<RawId>>)

  datatype Catalogue = Catalogue(products: seq<CatalogueItem>, variations: map<ItemId, seq<CatalogueItem>>)

  predicate MatchesItemId(s: string) {
    1 <= |s| <= 32 && '1' <= s[0] <= '9' && forall i | 1 <= i < |s| :: '0' <= s[i] <= '9'
  }

  predicate NormalizesIdentifier(v: RawId) {
    match v
    case Number(n) => 0 < n <= MAX_SAFE_INTEGER
    case Text(s) => MatchesItemId(s)
    case Other => false
  }

  predicate RequiresVariationScan(item: CatalogueItem) {
    item.kind == "variable" && item.variations.Some? && exists v | v in item.variations.value :: NormalizesIdentifier(v)
  }

  /** The variations of a parent; a parent that is not found lists none. */
  function Listing(cat: Catalogue, parent: ItemId): seq<CatalogueItem> {
    if parent in cat.variations then cat.variations[parent] else []
  }

  /** Where page `page` starts and ends in a list of `n` items. */
  function PageStart(n: nat, page: nat): nat {
    if page == 0 then 0 else if PAGE_SIZE * (page - 1) < n then PAGE_SIZE * (page - 1) else n
  }

  function PageEnd(n: nat, page: nat): nat {
    if PAGE_SIZE * page < n then PAGE_SIZE * page else n
  }

  function PageOf(items: seq<CatalogueItem>, page: nat): seq<CatalogueItem> {
    var start, end := PageStart(|items|, page), PageEnd(|items|, page);
    seq(end - start, i requires 0 <= i < end - start => items[start + i])
  }

  // The cursor

  datatype Cursor = Cursor(productPage: nat, productsDone: bool, parents: seq<ItemId>, variationPage: nat)

  const START := Cursor(1, false, [], 1)

  predicate Drained(c: Cursor) {
    c.productsDone && c.parents == []
  }

  /** The page that the unit of work at this cursor projects. */
  function UnitPage(cat: Catalogue, c: Cursor): seq<CatalogueItem> {
    if c.parents != [] then PageOf(Listing(cat, c.parents[0]), c.variationPage)
    else if c.productsDone then []
    else PageOf(cat.products, c.productPage)
  }

  /** Ids of the items in `lo..hi` that need a variation scan, in order. */
  function ScanIds(items: seq<CatalogueItem>, lo: nat, hi: nat): seq<ItemId>
    requires lo <= hi <= |items|
    decreases hi
  {
    if lo == hi then []
    else if RequiresVariationScan(items[hi - 1]) then ScanIds(items, lo, hi - 1) + [items[hi - 1].id]
    else ScanIds(items, lo, hi - 1)
  }

  /** Each of the first `n` ids once, at its first position. */
  function Dedupe(ids: seq<ItemId>, n: nat): seq<ItemId>
    requires n <= |ids|
    decreases n
  {
    if n == 0 then []
    else if ids[n - 1] in Dedupe(ids, n - 1) then Dedupe(ids, n - 1)
    else Dedupe(ids, n - 1) + [ids[n - 1]]
  }

  /** The parents that a product page adds. */
  function ParentsOn(page: seq<CatalogueItem>): seq<ItemId> {
    var ids := ScanIds(page, 0, |page|);
    Dedupe(ids, |ids|)
  }

  function NextCursor(cat: Catalogue, c: Cursor): Cursor {
    var page := UnitPage(cat, c);
    if c.parents != [] then
      if |page| < PAGE_SIZE then c.(parents := c.parents[1..], variationPage := 1)
      else c.(variationPage := c.variationPage + 1)
    else if c.productsDone then c
    else Cursor(c.productPage + 1, |page| < PAGE_SIZE, ParentsOn(page), 1)
  }

  /**
   A product's variations are scanned exactly when it is variable and lists an id: a positive integer, or its decimal
   text.
  */
  lemma ScanRule(item: CatalogueItem)
    ensures RequiresVariationScan(item) <==>
              && item.kind == "variable" && item.variations != None
              && exists v ::
                   && v in item.variations.value
                   && (v.Number? ==> v.value > 0 && v.value <= 9_007_199_254_740_991)
                   && (v.Text? ==>
                         && 0 < |v.text| < 33 && v.text[0] in "123456789"
                         && forall c | c in v.text :: c in "0123456789")
                   && v != Other
  {
    forall v: RawId | v.Text?
      ensures MatchesItemId(v.text) <==>
                0 < |v.text| < 33 && v.text[0] in "123456789" && forall c | c in v.text :: c in "0123456789"
    {
      TextRule(v.text);
    }
  }

  lemma DigitRule(c: char)
    ensures '1' <= c <= '9' <==> c in "123456789"
    ensures '0' <= c <= '9' <==> c in "0123456789"
  {
    var nonzero, digits := "123456789", "0123456789";
    if '0' <= c <= '9' {
      var i := c as int - '0' as int;
      assert digits[i] == c;
      if '1' <= c {
        assert nonzero[i - 1] == c;
      }
    }
  }

  lemma TextRule(s: string)
    ensures MatchesItemId(s) <==> 0 < |s| < 33 && s[0] in "123456789" && forall c | c in s :: c in "0123456789"
  {
    if s != [] {
      DigitRule(s[0]);
    }
    forall c
      ensures '0' <= c <= '9' <==> c in "0123456789"
    {
      DigitRule(c);
    }
    assert forall i | 0 <= i < |s| :: s[i] in s;
  }

  lemma {:induction false} ScanIdsContain(items: seq<CatalogueItem>, lo: nat, hi: nat, i: nat)
    requires lo <= i < hi <= |items| && RequiresVariationScan(items[i])
    ensures items[i].id in ScanIds(items, lo, hi)
    decreases hi
  {
    if i < hi - 1 {
      ScanIdsContain(items, lo, hi - 1, i);
    }
  }

  lemma {:induction false} ScanIdsFrom(items: seq<CatalogueItem>, lo: nat, hi: nat, id: ItemId)
    requires lo <= hi <= |items| && id in ScanIds(items, lo, hi)
    ensures exists i :: lo <= i < hi && items[i].id == id && RequiresVariationScan(items[i])
    decreases hi
  {
    if id in ScanIds(items, lo, hi - 1) {
      ScanIdsFrom(items, lo, hi - 1, id);
    } else {
      assert items[hi - 1].id == id;
    }
  }

  lemma {:induction false} DedupeKeeps(ids: seq<ItemId>, n: nat, i: nat)
    requires i < n <= |ids|
    ensures ids[i] in Dedupe(ids, n)
    decreases n
  {
    if i < n - 1 {
      DedupeKeeps(ids, n - 1, i);
    }
  }

  lemma {:induction false} DedupeFrom(ids: seq<ItemId>, n: nat, id: ItemId)
    requires n <= |ids| && id in Dedupe(ids, n)
    ensures id in ids
    decreases n
  {
    if id in Dedupe(ids, n - 1) {
      DedupeFrom(ids, n - 1, id);
    }
  }

  lemma {:induction false} DedupeOnce(ids: seq<ItemId>, n: nat)
    requires n <= |ids|
    ensures forall i, j | 0 <= i < j < |Dedupe(ids, n)| :: Dedupe(ids, n)[i] != Dedupe(ids, n)[j]
    decreases n
  {
    if n > 0 {
      DedupeOnce(ids, n - 1);
    }
  }

  /** A product page leaves as parents to scan each of its products that needs it, once. */
  lemma ParentsOnAre(page: seq<CatalogueItem>, id: ItemId)
    ensures id in ParentsOn(page) <==> exists i :: 0 <= i < |page| && page[i].id == id && RequiresVariationScan(page[i])
    ensures forall i, j | 0 <= i < j < |ParentsOn(page)| :: ParentsOn(page)[i] != ParentsOn(page)[j]
  {
    var ids := ScanIds(page, 0, |page|);
    DedupeOnce(ids, |ids|);
    if id in ParentsOn(page) {
      DedupeFrom(ids, |ids|, id);
      ScanIdsFrom(page, 0, |page|, id);
    }
    if i :| 0 <= i < |page| && page[i].id == id && RequiresVariationScan(page[i]) {
      ParentsOnContain(page, i);
    }
  }

  lemma ParentsOnContain(page: seq<CatalogueItem>, i: nat)
    requires i < |page| && RequiresVariationScan(page[i])
    ensures page[i].id in ParentsOn(page)
  {
    var ids := ScanIds(page, 0, |page|);
    ScanIdsContain(page, 0, |page|, i);
    var k :| 0 <= k < |ids| && ids[k] == page[i].id;
    DedupeKeeps(ids, |ids|, k);
  }

  // Work that remains at a cursor

  /** How many pages listing `n` items takes: the last one is short. */
  function Pages(n: nat): nat {
    n / PAGE_SIZE + 1
  }

  /** The pages of the parents from position `i` on. */
  function ParentUnits(cat: Catalogue, parents: seq<ItemId>, i: nat): nat
    decreases |parents| - i
  {
    if i >= |parents| then 0 else Pages(|Listing(cat, parents[i])|) + ParentUnits(cat, parents, i + 1)
  }

  function PageParents(cat: Catalogue, page: seq<CatalogueItem>): nat {
    ParentUnits(cat, ParentsOn(page), 0)
  }

  /** The units of pages `page` to `last`: each page, and what it adds. */
  function SumPages(added: nat -> nat, page: nat, last: nat): nat
    decreases last + 1 - page
  {
    if page > last then 0 else 1 + added(page) + SumPages(added, page + 1, last)
  }

  function ParentsAdded(cat: Catalogue): nat -> nat {
    (page: nat) => PageParents(cat, PageOf(cat.products, page))
  }

  /** Units from product page `page` on: the page, its parents, and the pages after it. */
  function ProductUnits(cat: Catalogue, page: nat): nat {
    SumPages(ParentsAdded(cat), page, Pages(|cat.products|))
  }

  ghost predicate ValidCursor(cat: Catalogue, c: Cursor) {
    && c.productPage >= 1 && c.variationPage >= 1
    && (if c.parents == [] then c.variationPage == 1 else c.variationPage <= Pages(|Listing(cat, c.parents[0])|))
    && (!c.productsDone ==> c.productPage <= Pages(|cat.products|))
  }

  function Remaining(cat: Catalogue, c: Cursor): nat
    requires ValidCursor(cat, c)
  {
    ParentUnits(cat, c.parents, 0) - (c.variationPage - 1)
    + if c.productsDone then 0 else ProductUnits(cat, c.productPage)
  }

  lemma {:induction false} ParentUnitsShift(cat: Catalogue, parents: seq<ItemId>, i: nat)
    requires parents != []
    ensures ParentUnits(cat, parents[1..], i) == ParentUnits(cat, parents, i + 1)
    decreases |parents| - i
  {
    if i + 1 < |parents| {
      ParentUnitsShift(cat, parents, i + 1);
    }
  }

  lemma PageLength(items: seq<CatalogueItem>, page: nat)
    requires 1 <= page <= Pages(|items|)
    ensures |PageOf(items, page)| < PAGE_SIZE <==> page == Pages(|items|)
    ensures |PageOf(items, page)| < PAGE_SIZE <==> PAGE_SIZE * page > |items|
  {
  }

  lemma ParentUnitLeaves(cat: Catalogue, c: Cursor)
    requires ValidCursor(cat, c) && c.parents != []
    ensures ValidCursor(cat, NextCursor(cat, c))
    ensures Remaining(cat, NextCursor(cat, c)) + 1 == Remaining(cat, c)
  {
    PageLength(Listing(cat, c.parents[0]), c.variationPage);
    if |UnitPage(cat, c)| < PAGE_SIZE {
      ParentUnitsShift(cat, c.parents, 0);
      assert ParentUnits(cat, c.parents, 0) == c.variationPage + ParentUnits(cat, c.parents[1..], 0);
    }
  }

  lemma ProductUnitsStep(cat: Catalogue, page: nat)
    requires 1 <= page <= Pages(|cat.products|)
    ensures ProductUnits(cat, page)
         == 1 + PageParents(cat, PageOf(cat.products, page))
            + if page == Pages(|cat.products|) then 0 else ProductUnits(cat, page + 1)
  {
    var added, last := ParentsAdded(cat), Pages(|cat.products|);
    assert SumPages(added, page, last) == 1 + added(page) + SumPages(added, page + 1, last);
    assert page == last ==> SumPages(added, page + 1, last) == 0;
  }

  lemma ProductUnitValid(cat: Catalogue, c: Cursor)
    requires ValidCursor(cat, c) && c.parents == [] && !c.productsDone
    ensures ValidCursor(cat, NextCursor(cat, c))
    ensures NextCursor(cat, c) ==
              Cursor(c.productPage + 1, c.productPage == Pages(|cat.products|), NextCursor(cat, c).parents, 1)
  {
    PageLength(cat.products, c.productPage);
  }

  lemma ProductUnitParents(cat: Catalogue, c: Cursor)
    requires c.parents == [] && !c.productsDone
    ensures ParentUnits(cat, NextCursor(cat, c).parents, 0) == PageParents(cat, PageOf(cat.products, c.productPage))
  {
  }

  lemma ProductUnitSum(cat: Catalogue, c: Cursor, next: Cursor, added: nat)
    requires ValidCursor(cat, c) && ValidCursor(cat, next) && c.parents == [] && !c.productsDone
    requires next == Cursor(c.productPage + 1, c.productPage == Pages(|cat.products|), next.parents, 1)
    requires ParentUnits(cat, next.parents, 0) == added
    requires ProductUnits(cat, c.productPage)
          == 1 + added + if c.productPage == Pages(|cat.products|) then 0 else ProductUnits(cat, c.productPage + 1)
    ensures Remaining(cat, next) + 1 == Remaining(cat, c)
  {
  }

  lemma ProductUnitLeft(cat: Catalogue, c: Cursor, next: Cursor)
    requires ValidCursor(cat, c) && ValidCursor(cat, next) && c.parents == [] && !c.productsDone
    requires next == Cursor(c.productPage + 1, c.productPage == Pages(|cat.products|), next.parents, 1)
    requires ParentUnits(cat, next.parents, 0) == PageParents(cat, PageOf(cat.products, c.productPage))
    ensures Remaining(cat, next) + 1 == Remaining(cat, c)
  {
    ProductUnitsStep(cat, c.productPage);
    ProductUnitSum(cat, c, next, PageParents(cat, PageOf(cat.products, c.productPage)));
  }

  lemma ProductUnitLeaves(cat: Catalogue, c: Cursor)
    requires ValidCursor(cat, c) && c.parents == [] && !c.productsDone
    ensures ValidCursor(cat, NextCursor(cat, c))
    ensures Remaining(cat, NextCursor(cat, c)) + 1 == Remaining(cat, c)
  {
    ProductUnitValid(cat, c);
    ProductUnitParents(cat, c);
    ProductUnitLeft(cat, c, NextCursor(cat, c));
  }

  /** A unit of work leaves one unit less. */
  lemma UnitLeavesOneLess(cat: Catalogue, c: Cursor)
    requires ValidCursor(cat, c) && !Drained(c)
    ensures ValidCursor(cat, NextCursor(cat, c))
    ensures Remaining(cat, NextCursor(cat, c)) + 1 == Remaining(cat, c)
  {
    if c.parents != [] {
      ParentUnitLeaves(cat, c);
    } else {
      ProductUnitLeaves(cat, c);
    }
  }

  lemma NothingRemainsIff(cat: Catalogue, c: Cursor)
    requires ValidCursor(cat, c)
    ensures Remaining(cat, c) == 0 <==> Drained(c)
  {
  }

  // What the cursor says has been projected

  /** How many products lie before the cursor. */
  function Passed(cat: Catalogue, c: Cursor): nat
    requires ValidCursor(cat, c)
  {
    if c.productsDone then |cat.products| else PAGE_SIZE * (c.productPage - 1)
  }

  ghost predicate Covered(cat: Catalogue, c: Cursor, projected: set<CatalogueItem>)
    requires ValidCursor(cat, c)
  {
    && (forall i | 0 <= i < Passed(cat, c) :: cat.products[i] in projected)
    && (forall i | 0 <= i < Passed(cat, c) && RequiresVariationScan(cat.products[i])
                   && cat.products[i].id !in c.parents ::
          Listed(cat, cat.products[i].id, projected))
    && (c.parents != [] ==>
          forall j | 0 <= j < PAGE_SIZE * (c.variationPage - 1) :: Listing(cat, c.parents[0])[j] in projected)
  }

  /** Every variation of the parent has been projected. */
  ghost predicate Listed(cat: Catalogue, parent: ItemId, projected: set<CatalogueItem>) {
    forall v | v in Listing(cat, parent) :: v in projected
  }

  lemma PageCovers(items: seq<CatalogueItem>, page: nat, projected: set<CatalogueItem>)
    requires page >= 1 && PAGE_SIZE * (page - 1) <= |items|
    requires forall j | 0 <= j < PAGE_SIZE * (page - 1) :: items[j] in projected
    requires forall k | 0 <= k < |PageOf(items, page)| :: PageOf(items, page)[k] in projected
    ensures |PageOf(items, page)| < PAGE_SIZE ==> forall v | v in items :: v in projected
    ensures |PageOf(items, page)| >= PAGE_SIZE ==>
              PAGE_SIZE * page <= |items| && forall j | 0 <= j < PAGE_SIZE * page :: items[j] in projected
  {
    var start, p := PAGE_SIZE * (page - 1), PageOf(items, page);
    forall j | 0 <= j < start + |p|
      ensures items[j] in projected
    {
      if j >= start {
        assert items[j] == p[j - start];
      }
    }
  }

  lemma ParentUnitCovers(cat: Catalogue, c: Cursor, projected: set<CatalogueItem>)
    requires ValidCursor(cat, c) && c.parents != [] && Covered(cat, c, projected)
    requires forall k | 0 <= k < |UnitPage(cat, c)| :: UnitPage(cat, c)[k] in projected
    ensures ValidCursor(cat, NextCursor(cat, c)) && Covered(cat, NextCursor(cat, c), projected)
  {
    ParentUnitLeaves(cat, c);
    PageCovers(Listing(cat, c.parents[0]), c.variationPage, projected);
    if |UnitPage(cat, c)| < PAGE_SIZE {
      assert Listed(cat, c.parents[0], projected);
      assert forall id | id in c.parents && id !in c.parents[1..] :: id == c.parents[0];
    }
  }

  lemma UnitCovers(cat: Catalogue, c: Cursor, projected: set<CatalogueItem>)
    requires ValidCursor(cat, c) && !Drained(c) && Covered(cat, c, projected)
    requires forall k | 0 <= k < |UnitPage(cat, c)| :: UnitPage(cat, c)[k] in projected
    ensures ValidCursor(cat, NextCursor(cat, c)) && Covered(cat, NextCursor(cat, c), projected)
  {
    if c.parents != [] {
      ParentUnitCovers(cat, c, projected);
    } else {
      assert UnitPage(cat, c) == PageOf(cat.products, c.productPage);
      PageCovers(cat.products, c.productPage, projected);
      NewParentsHeld(cat, c);
    }
  }

  /** The parents found on a product page are all in the next cursor. */
  lemma NewParentsHeld(cat: Catalogue, c: Cursor)
    requires ValidCursor(cat, c) && !c.productsDone && c.parents == []
    ensures ValidCursor(cat, NextCursor(cat, c))
    ensures forall i | Passed(cat, c) <= i < Passed(cat, NextCursor(cat, c))
                       && RequiresVariationScan(cat.products[i]) ::
              cat.products[i].id in NextCursor(cat, c).parents
  {
    UnitLeavesOneLess(cat, c);
    var page := PageOf(cat.products, c.productPage);
    forall i | Passed(cat, c) <= i < Passed(cat, NextCursor(cat, c)) && RequiresVariationScan(cat.products[i])
      ensures cat.products[i].id in NextCursor(cat, c).parents
    {
      assert page[i - Passed(cat, c)] == cat.products[i];
      ParentsOnContain(page, i - Passed(cat, c));
    }
  }

  // The store's row

  datatype SyncState = Uninitialized | Syncing | Failed | Ready

  datatype StoreRow = StoreRow(
    active: bool,
    state: SyncState,
    revision: nat,
    lease: Option<int>,
    cursor: Cursor,
    failureCode: Option<string>
  )

  /** The first update of `process`. */
  predicate Claimable(row: StoreRow, revision: nat, now: int) {
    row.active && row.state.Syncing? && row.revision == revision
      && (row.lease.None? || row.lease.value <= now - LEASE_MS)
  }

  function ClaimRow(row: StoreRow, revision: nat, now: int): StoreRow {
    if Claimable(row, revision, now) then row.(lease := Some(now)) else row
  }

  predicate HoldsLease(row: StoreRow, revision: nat, claimedAt: int) {
    row.state.Syncing? && row.revision == revision && row.lease == Some(claimedAt)
  }

  function AdvanceRow(row: StoreRow, revision: nat, claimedAt: int, next: Cursor, ready: bool): StoreRow {
    if HoldsLease(row, revision, claimedAt) then
      row.(state := if ready then Ready else Syncing, revision := row.revision + 1, lease := None, cursor := next,
           failureCode := None)
    else row
  }

  function ReleaseRow(row: StoreRow, revision: nat, claimedAt: int): StoreRow {
    if HoldsLease(row, revision, claimedAt) then row.(lease := None) else row
  }

  function MarkFailedRow(row: StoreRow, revision: nat, code: string): StoreRow {
    if row.state.Syncing? && row.revision == revision then
      row.(state := Failed, lease := None, failureCode := Some(code))
    else row
  }

  /** The update of `ensureInitialized`, which acts on a state it has read before. */
  function EnsureRow(row: StoreRow, previous: SyncState): StoreRow {
    if (previous.Uninitialized? || previous.Failed?) && row.state == previous && row.active then
      row.(state := Syncing, revision := row.revision + 1, lease := None, failureCode := None)
    else row
  }

  const ENQUEUE_FAILED := "bootstrap-enqueue-failed"

  function EnqueuedRow(row: StoreRow, revision: nat, enqueued: bool): StoreRow {
    if !(row.state.Syncing? && row.revision == revision) then row
    else if !enqueued then row.(lease := None, failureCode := Some(ENQUEUE_FAILED))
    else if row.failureCode == Some(ENQUEUE_FAILED) then row.(failureCode := None)
    else row
  }

  // All workers on one store

  /** `job` is the revision the job names; `done` counts the page's items that are projected. */
  datatype Worker =
    | Idle
    | Claimed(job: nat, claimedAt: int)
    | Loaded(job: nat, claimedAt: int, revision: nat, cursor: Cursor, done: nat)
    | Failing(job: nat, claimedAt: int)

  /** `advanced` lists the revisions at which the cursor moved. */
  datatype World = World(row: StoreRow, workers: map<nat, Worker>, projected: set<CatalogueItem>, advanced: seq<nat>)

  datatype Action =
    | SetActive(active: bool)
    | Ensure(previous: SyncState)
    | Enqueued(revision: nat, enqueued: bool)
    | Claim(worker: nat, revision: nat, now: int)
    | Load(worker: nat)
    | Project(worker: nat)
    | Advance(worker: nat)
    | Fail(worker: nat)
    | Release(worker: nat)
    | Crash(worker: nat)
    | MarkFailed(revision: nat, code: string)

  function WorkerAt(w: World, k: nat): Worker {
    if k in w.workers then w.workers[k] else Idle
  }

  function SetWorker(w: World, k: nat, worker: Worker): World {
    w.(workers := w.workers[k := worker])
  }

  function Initial(active: bool, revision: nat): World {
    World(StoreRow(active, Uninitialized, revision, None, START, None), map[], {}, [])
  }

  function Step(cat: Catalogue, w: World, a: Action): World {
    match a
    case SetActive(active) => w.(row := w.row.(active := active))
    case Ensure(previous) => w.(row := EnsureRow(w.row, previous))
    case Enqueued(revision, enqueued) => w.(row := EnqueuedRow(w.row, revision, enqueued))
    case MarkFailed(revision, code) => w.(row := MarkFailedRow(w.row, revision, code))
    case Claim(k, revision, now) =>
      if WorkerAt(w, k).Idle? && Claimable(w.row, revision, now) then
        SetWorker(w.(row := ClaimRow(w.row, revision, now)), k, Claimed(revision, now))
      else w
    case Load(k) =>
      var worker := WorkerAt(w, k);
      if !worker.Claimed? then w
      else if !w.row.active then SetWorker(w, k, Idle)
      else SetWorker(w, k, Loaded(worker.job, worker.claimedAt, w.row.revision, w.row.cursor, 0))
    case Project(k) =>
      var worker := WorkerAt(w, k);
      if !(worker.Loaded? && worker.done < |UnitPage(cat, worker.cursor)|) then w
      else
        var item := UnitPage(cat, worker.cursor)[worker.done];
        if item.mappable then SetWorker(w.(projected := w.projected + {item}), k, worker.(done := worker.done + 1))
        else SetWorker(w, k, Failing(worker.job, worker.claimedAt))
    case Advance(k) =>
      var worker := WorkerAt(w, k);
      if !(worker.Loaded? && worker.done == |UnitPage(cat, worker.cursor)|) then w
      else if !HoldsLease(w.row, worker.revision, worker.claimedAt) then
        SetWorker(w, k, Failing(worker.job, worker.claimedAt))
      else
        var next := NextCursor(cat, worker.cursor);
        SetWorker(
          w.(row := AdvanceRow(w.row, worker.revision, worker.claimedAt, next, Drained(next)),
             advanced := w.advanced + [worker.revision]),
          k, Idle)
    case Fail(k) =>
      var worker := WorkerAt(w, k);
      if worker.Loaded? then SetWorker(w, k, Failing(worker.job, worker.claimedAt)) else w
    case Release(k) =>
      var worker := WorkerAt(w, k);
      if worker.Failing? then SetWorker(w.(row := ReleaseRow(w.row, worker.job, worker.claimedAt)), k, Idle) else w
    case Crash(k) => SetWorker(w, k, Idle)
  }

  predicate IsParent(cat: Catalogue, id: ItemId) {
    exists p :: p in cat.products && RequiresVariationScan(p) && p.id == id
  }

  lemma NextParents(cat: Catalogue, c: Cursor)
    requires forall id | id in c.parents :: IsParent(cat, id)
    ensures forall id | id in NextCursor(cat, c).parents :: IsParent(cat, id)
  {
    if c.parents == [] && !c.productsDone {
      var page := PageOf(cat.products, c.productPage);
      forall id | id in ParentsOn(page)
        ensures IsParent(cat, id)
      {
        var ids := ScanIds(page, 0, |page|);
        DedupeFrom(ids, |ids|, id);
        ScanIdsFrom(page, 0, |page|, id);
        var i :| 0 <= i < |page| && page[i].id == id && RequiresVariationScan(page[i]);
        assert page[i] in cat.products;
      }
    }
  }

  /** What a worker has loaded is not newer than the row, and is the row's cursor when it is as new. */
  ghost predicate ValidWorker(cat: Catalogue, w: World, worker: Worker) {
    worker.Loaded? ==>
      && worker.revision <= w.row.revision
      && (worker.revision == w.row.revision ==> worker.cursor == w.row.cursor)
      && worker.done <= |UnitPage(cat, worker.cursor)|
      && forall i | 0 <= i < worker.done :: UnitPage(cat, worker.cursor)[i] in w.projected
  }

  ghost predicate Inv(cat: Catalogue, w: World) {
    && ValidCursor(cat, w.row.cursor)
    && Covered(cat, w.row.cursor, w.projected)
    && (forall id | id in w.row.cursor.parents :: IsParent(cat, id))
    && (w.row.state.Ready? <==> Drained(w.row.cursor))
    && |w.advanced| + Remaining(cat, w.row.cursor) == Remaining(cat, START)
    && (forall i | 0 <= i < |w.advanced| :: w.advanced[i] < w.row.revision)
    && (forall i, j | 0 <= i < j < |w.advanced| :: w.advanced[i] < w.advanced[j])
    && (forall item | item in w.projected :: item.mappable)
    && (forall k | k in w.workers :: ValidWorker(cat, w, w.workers[k]))
  }

  lemma InitialInv(cat: Catalogue, active: bool, revision: nat)
    ensures Inv(cat, Initial(active, revision))
  {
  }

  lemma AdvanceKeepsWorkers(cat: Catalogue, w: World, k: nat)
    requires forall j | j in w.workers :: ValidWorker(cat, w, w.workers[j])
    ensures var after := Step(cat, w, Advance(k));
            forall j | j in after.workers :: ValidWorker(cat, after, after.workers[j])
  {
    var after := Step(cat, w, Advance(k));
    forall j | j in after.workers
      ensures ValidWorker(cat, after, after.workers[j])
    {
      if j in w.workers {
        assert ValidWorker(cat, w, w.workers[j]);
      }
    }
  }

  lemma AdvanceKeepsInv(cat: Catalogue, w: World, k: nat)
    requires Inv(cat, w)
    ensures Inv(cat, Step(cat, w, Advance(k)))
  {
    var worker := WorkerAt(w, k);
    AdvanceKeepsWorkers(cat, w, k);
    if worker.Loaded? && worker.done == |UnitPage(cat, worker.cursor)|
       && HoldsLease(w.row, worker.revision, worker.claimedAt) {
      assert ValidWorker(cat, w, worker);
      UnitLeavesOneLess(cat, w.row.cursor);
      UnitCovers(cat, w.row.cursor, w.projected);
      NextParents(cat, w.row.cursor);
    } else {
      OtherKeepsInv(cat, w, Advance(k));
    }
  }

  lemma CoveredGrows(cat: Catalogue, c: Cursor, projected: set<CatalogueItem>, more: set<CatalogueItem>)
    requires ValidCursor(cat, c) && Covered(cat, c, projected) && projected <= more
    ensures Covered(cat, c, more)
  {
    forall i | 0 <= i < Passed(cat, c) && RequiresVariationScan(cat.products[i]) && cat.products[i].id !in c.parents
      ensures Listed(cat, cat.products[i].id, more)
    {
      assert Listed(cat, cat.products[i].id, projected);
    }
  }

  lemma ProjectKeepsWorker(cat: Catalogue, w: World, k: nat, j: nat)
    requires j in w.workers && ValidWorker(cat, w, w.workers[j])
    ensures var after := Step(cat, w, Project(k)); j in after.workers && ValidWorker(cat, after, after.workers[j])
  {
    var after, worker := Step(cat, w, Project(k)), w.workers[j];
    assert after.row == w.row && w.projected <= after.projected;
    if j == k && worker.Loaded? && worker.done < |UnitPage(cat, worker.cursor)| {
      var page := UnitPage(cat, worker.cursor);
      assert after.workers[j].Loaded? ==>
               after.workers[j] == worker.(done := worker.done + 1) && page[worker.done] in after.projected;
    } else {
      assert after.workers[j] == worker;
    }
  }

  lemma ProjectKeepsInv(cat: Catalogue, w: World, k: nat)
    requires Inv(cat, w)
    ensures Inv(cat, Step(cat, w, Project(k)))
  {
    var after := Step(cat, w, Project(k));
    assert after.row == w.row && after.advanced == w.advanced;
    assert w.projected <= after.projected && forall item | item in after.projected :: item.mappable;
    CoveredGrows(cat, w.row.cursor, w.projected, after.projected);
    forall j | j in after.workers
      ensures ValidWorker(cat, after, after.workers[j])
    {
      if j in w.workers {
        ProjectKeepsWorker(cat, w, k, j);
      }
    }
  }

  lemma OtherKeepsWorker(cat: Catalogue, w: World, a: Action, k: nat)
    requires forall j | j in w.workers :: ValidWorker(cat, w, w.workers[j])
    requires var after := Step(cat, w, a); after.row.cursor == w.row.cursor && after.projected == w.projected
    requires !a.Project? && k in Step(cat, w, a).workers
    ensures ValidWorker(cat, Step(cat, w, a), Step(cat, w, a).workers[k])
  {
    if k in w.workers {
      assert ValidWorker(cat, w, w.workers[k]);
    }
  }

  /** Steps that neither move the cursor nor project. */
  lemma OtherKeepsInv(cat: Catalogue, w: World, a: Action)
    requires Inv(cat, w)
    requires var after := Step(cat, w, a);
             after.row.cursor == w.row.cursor && after.projected == w.projected && after.advanced == w.advanced
    requires !a.Project?
    ensures Inv(cat, Step(cat, w, a))
  {
    var after := Step(cat, w, a);
    assert after.row.revision >= w.row.revision && (after.row.state.Ready? <==> w.row.state.Ready?);
    forall k | k in after.workers
      ensures ValidWorker(cat, after, after.workers[k])
    {
      OtherKeepsWorker(cat, w, a, k);
    }
  }

  lemma StepKeepsInv(cat: Catalogue, w: World, a: Action)
    requires Inv(cat, w)
    ensures Inv(cat, Step(cat, w, a))
  {
    match a
    case Advance(k) => AdvanceKeepsInv(cat, w, k);
    case Project(k) => ProjectKeepsInv(cat, w, k);
    case _ => OtherKeepsInv(cat, w, a);
  }

  /** The world after a run. */
  function Run(cat: Catalogue, w: World, actions: seq<Action>): World
    decreases |actions|
  {
    if actions == [] then w else Run(cat, Step(cat, w, actions[0]), actions[1..])
  }

  lemma {:induction false} RunKeepsInv(cat: Catalogue, w: World, actions: seq<Action>)
    requires Inv(cat, w)
    ensures Inv(cat, Run(cat, w, actions))
    decreases |actions|
  {
    if actions != [] {
      StepKeepsInv(cat, w, actions[0]);
      RunKeepsInv(cat, Step(cat, w, actions[0]), actions[1..]);
    }
  }

  lemma StartedRun(cat: Catalogue, active: bool, revision: nat, actions: seq<Action>)
    ensures Inv(cat, Run(cat, Initial(active, revision), actions))
  {
    InitialInv(cat, active, revision);
    RunKeepsInv(cat, Initial(active, revision), actions);
  }

  // What holds of every run

  /** The items a full scan has to project. */
  predicate Wanted(cat: Catalogue, item: CatalogueItem) {
    || item in cat.products
    || exists p :: && p in cat.products && RequiresVariationScan(p)
                   && p.id in cat.variations && item in cat.variations[p.id]
  }

  /**
  However workers interleave, lose their lease, fail and resume: when the store is READY, every product and every
  variation of every parent that needs a scan has been projected.
  */
  lemma ReadyMeansCovered(cat: Catalogue, active: bool, revision: nat, actions: seq<Action>, item: CatalogueItem)
    requires Run(cat, Initial(active, revision), actions).row.state.Ready? && Wanted(cat, item)
    ensures item in Run(cat, Initial(active, revision), actions).projected && item.mappable
  {
    var w := Run(cat, Initial(active, revision), actions);
    StartedRun(cat, active, revision, actions);
    if item in cat.products {
      var i :| 0 <= i < |cat.products| && cat.products[i] == item;
      assert i < Passed(cat, w.row.cursor);
    } else {
      var p :| p in cat.products && RequiresVariationScan(p) && item in Listing(cat, p.id);
      var i :| 0 <= i < |cat.products| && cat.products[i] == p;
      assert i < Passed(cat, w.row.cursor);
      assert Listed(cat, p.id, w.projected);
    }
  }

  /**
   Conservation: each revision moves the cursor at most once, and the moves made and the units left are a full scan.
  */
  lemma AdvancesAndUnitsLeft(cat: Catalogue, active: bool, revision: nat, actions: seq<Action>)
    ensures var w := Run(cat, Initial(active, revision), actions);
            && ValidCursor(cat, w.row.cursor) && |w.advanced| + Remaining(cat, w.row.cursor) == Remaining(cat, START)
            && (forall i, j | 0 <= i < j < |w.advanced| :: w.advanced[i] < w.advanced[j])
            && (w.row.state.Ready? <==> |w.advanced| == Remaining(cat, START))
  {
    StartedRun(cat, active, revision, actions);
    NothingRemainsIff(cat, Run(cat, Initial(active, revision), actions).row.cursor);
  }

  lemma ReadyStep(cat: Catalogue, w: World, a: Action)
    requires Inv(cat, w) && w.row.state.Ready?
    ensures Inv(cat, Step(cat, w, a))
    ensures Step(cat, w, a).row == w.row.(active := Step(cat, w, a).row.active)
            && Step(cat, w, a).advanced == w.advanced
  {
    StepKeepsInv(cat, w, a);
  }

  /** READY is final: nothing but the store's activity changes afterwards. */
  lemma {:induction false} ReadyIsFinal(cat: Catalogue, w: World, actions: seq<Action>)
    requires Inv(cat, w) && w.row.state.Ready?
    ensures var after := Run(cat, w, actions);
            after.row == w.row.(active := after.row.active) && after.advanced == w.advanced
    decreases |actions|
  {
    if actions != [] {
      ReadyStep(cat, w, actions[0]);
      ReadyIsFinal(cat, Step(cat, w, actions[0]), actions[1..]);
    }
  }

  // What a lease is for

  /** The time of the claim a worker works under. */
  function ClaimTime(worker: Worker): Option<int> {
    if worker.Idle? then None else Some(worker.claimedAt)
  }

  /** The lease taken at `t` may be given up: its worker advances or releases it, or the scan fails or is resumed. */
  predicate GivesUp(w: World, a: Action, t: int) {
    || a.MarkFailed? || a.Ensure? || (a.Enqueued? && !a.enqueued)
    || ((a.Advance? || a.Release?) && ClaimTime(WorkerAt(w, a.worker)) == Some(t))
  }

  /** Along the run nothing gives up the lease taken at `t`, and every job comes within thirty seconds of it. */
  predicate Undisturbed(cat: Catalogue, w: World, actions: seq<Action>, t: int)
    decreases |actions|
  {
    actions != [] ==>
      && !GivesUp(w, actions[0], t) && (actions[0].Claim? ==> actions[0].now < t + 30_000)
      && Undisturbed(cat, Step(cat, w, actions[0]), actions[1..], t)
  }

  lemma LeaseStep(cat: Catalogue, w: World, a: Action, t: int, j: nat)
    requires w.row.lease == Some(t) && !GivesUp(w, a, t) && (a.Claim? ==> a.now < t + 30_000)
    ensures var after := Step(cat, w, a);
            && after.row == w.row.(active := after.row.active, failureCode := after.row.failureCode)
            && after.advanced == w.advanced
            && (WorkerAt(after, j).Claimed? ==> WorkerAt(w, j) == WorkerAt(after, j))
  {
  }

  /** Until then the lease stays, the cursor stays, and no job gets in. */
  lemma {:induction false} LeaseExcludes(cat: Catalogue, w: World, actions: seq<Action>, t: int, j: nat)
    requires w.row.lease == Some(t) && Undisturbed(cat, w, actions, t)
    ensures var after := Run(cat, w, actions);
            && after.row.lease == Some(t) && after.row.state == w.row.state && after.row.revision == w.row.revision
            && after.row.cursor == w.row.cursor && after.advanced == w.advanced
            && (WorkerAt(after, j).Claimed? ==> WorkerAt(w, j) == WorkerAt(after, j))
    decreases |actions|
  {
    if actions != [] {
      LeaseStep(cat, w, actions[0], t, j);
      LeaseExcludes(cat, Step(cat, w, actions[0]), actions[1..], t, j);
    }
  }

  /** A job gets in exactly when it names the running scan's revision and no lease is younger than thirty seconds. */
  lemma ClaimTakesIff(cat: Catalogue, w: World, k: nat, revision: nat, now: int)
    requires WorkerAt(w, k).Idle?
    ensures var after := Step(cat, w, Claim(k, revision, now));
            && (WorkerAt(after, k) == Claimed(revision, now) <==>
                  && w.row.active && w.row.state == Syncing && w.row.revision == revision
                  && (forall t | w.row.lease == Some(t) :: t + 30_000 <= now))
            && (WorkerAt(after, k).Claimed? ==> after.row == w.row.(lease := Some(now)))
            && (!WorkerAt(after, k).Claimed? ==> after == w)
  {
    assert w.row.lease.Some? ==> w.row.lease == Some(w.row.lease.value);
  }

  /** Out of its turn a worker does nothing, and a worker without a page loads the row as it is. */
  lemma OutOfTurn(cat: Catalogue, w: World, k: nat, revision: nat, now: int)
    ensures WorkerAt(w, k) != Idle ==> Step(cat, w, Claim(k, revision, now)) == w
    ensures !WorkerAt(w, k).Claimed? ==> Step(cat, w, Load(k)) == w
    ensures !WorkerAt(w, k).Loaded? ==>
              Step(cat, w, Project(k)) == w && Step(cat, w, Advance(k)) == w && Step(cat, w, Fail(k)) == w
    ensures !WorkerAt(w, k).Failing? ==> Step(cat, w, Release(k)) == w
    ensures WorkerAt(w, k).Claimed? ==>
              WorkerAt(Step(cat, w, Load(k)), k) ==
                if !w.row.active then Idle
                else Loaded(WorkerAt(w, k).job, WorkerAt(w, k).claimedAt, w.row.revision, w.row.cursor, 0)
  {
  }

  /**
   What a worker with a page does: it projects item by item, fails on one that cannot be mapped, advances at the end.
  */
  lemma PageTurns(cat: Catalogue, w: World, k: nat)
    requires WorkerAt(w, k).Loaded?
    ensures var worker := WorkerAt(w, k);
            var page := UnitPage(cat, worker.cursor);
            var failing := Failing(worker.job, worker.claimedAt);
            && (worker.done < |page| ==>
                  && Step(cat, w, Advance(k)) == w
                  && var after := Step(cat, w, Project(k));
                     && after.row == w.row && after.advanced == w.advanced
                     && if page[worker.done].mappable then
                          WorkerAt(after, k) == worker.(done := worker.done + 1)
                          && after.projected == w.projected + {page[worker.done]}
                        else WorkerAt(after, k) == failing && after.projected == w.projected)
            && (worker.done >= |page| ==> Step(cat, w, Project(k)) == w)
            && (worker.done == |page| ==>
                  var after := Step(cat, w, Advance(k));
                  && after.projected == w.projected
                  && if w.row.state == Syncing && w.row.revision == worker.revision
                        && w.row.lease == Some(worker.claimedAt)
                     then
                       && WorkerAt(after, k) == Idle && after.advanced == w.advanced + [worker.revision]
                       && after.row.revision == worker.revision + 1
                       && after.row.cursor == NextCursor(cat, worker.cursor)
                       && (after.row.state == Ready <==> Drained(NextCursor(cat, worker.cursor)))
                     else WorkerAt(after, k) == failing && after.row == w.row)
            && WorkerAt(Step(cat, w, Fail(k)), k) == failing && Step(cat, w, Fail(k)).row == w.row
  {
  }

  /**
   What the scheduler and failing jobs do to the row: start or resume, note an enqueueing, fail, give a lease back.
  */
  lemma ControlSteps(cat: Catalogue, w: World, previous: SyncState, revision: nat, enqueued: bool, code: string, k: nat)
    ensures var row := w.row;
            && Step(cat, w, Ensure(previous)).row ==
                 (if (row.state == Uninitialized || row.state == Failed) && row.state == previous && row.active
                  then StoreRow(true, Syncing, row.revision + 1, None, row.cursor, None) else row)
            && Step(cat, w, Enqueued(revision, enqueued)).row ==
                 (if row.state != Syncing || row.revision != revision then row
                  else if !enqueued then row.(lease := None, failureCode := Some("bootstrap-enqueue-failed"))
                  else if row.failureCode == Some("bootstrap-enqueue-failed") then row.(failureCode := None)
                  else row)
            && Step(cat, w, MarkFailed(revision, code)).row ==
                 (if row.state == Syncing && row.revision == revision
                  then row.(state := Failed, lease := None, failureCode := Some(code)) else row)
            && (WorkerAt(w, k).Failing? ==>
                  && WorkerAt(Step(cat, w, Release(k)), k) == Idle
                  && Step(cat, w, Release(k)).row ==
                       if row.state == Syncing && row.revision == WorkerAt(w, k).job
                          && row.lease == Some(WorkerAt(w, k).claimedAt)
                       then row.(lease := None) else row)
  {
  }

  // The length of a full scan

  ghost predicate DistinctIds(items: seq<CatalogueItem>) {
    forall i, j | 0 <= i < j < |items| :: items[i].id != items[j].id
  }

  ghost predicate DistinctTexts(ids: seq<ItemId>) {
    forall i, j | 0 <= i < j < |ids| :: ids[i] != ids[j]
  }

  lemma {:induction false} DedupeDistinct(ids: seq<ItemId>, n: nat)
    requires DistinctTexts(ids) && n <= |ids|
    ensures Dedupe(ids, n) == ids[..n]
    decreases n
  {
    if n > 0 {
      DedupeDistinct(ids, n - 1);
      assert ids[..n] == ids[..n - 1] + [ids[n - 1]];
    }
  }

  lemma {:induction false} ScanIdsDistinct(items: seq<CatalogueItem>, lo: nat, hi: nat)
    requires lo <= hi <= |items| && DistinctIds(items)
    ensures DistinctTexts(ScanIds(items, lo, hi))
    decreases hi
  {
    if lo < hi {
      ScanIdsDistinct(items, lo, hi - 1);
      var ids := ScanIds(items, lo, hi - 1);
      forall i | 0 <= i < |ids|
        ensures ids[i] != items[hi - 1].id
      {
        ScanIdsFrom(items, lo, hi - 1, ids[i]);
      }
    }
  }

  lemma {:induction false} ScanIdsOfPage(items: seq<CatalogueItem>, page: seq<CatalogueItem>, start: nat, n: nat)
    requires n <= |page| && start + |page| <= |items| && page == items[start..start + |page|]
    ensures ScanIds(page, 0, n) == ScanIds(items, start, start + n)
    decreases n
  {
    if n > 0 {
      ScanIdsOfPage(items, page, start, n - 1);
      assert page[n - 1] == items[start + n - 1];
    }
  }

  /** The variation pages of those products in `lo..hi` that need a scan. */
  function UnitsOf(cat: Catalogue, lo: nat, hi: nat): nat
    requires lo <= hi <= |cat.products|
    decreases hi
  {
    if lo == hi then 0
    else
      var p := cat.products[hi - 1];
      UnitsOf(cat, lo, hi - 1) + if RequiresVariationScan(p) then Pages(|Listing(cat, p.id)|) else 0
  }

  lemma {:induction false} ParentUnitsAppend(cat: Catalogue, a: seq<ItemId>, b: seq<ItemId>, i: nat)
    requires i <= |a|
    ensures ParentUnits(cat, a + b, i) == ParentUnits(cat, a, i) + ParentUnits(cat, b, 0)
    decreases |a| - i
  {
    if i < |a| {
      ParentUnitsAppend(cat, a, b, i + 1);
    } else {
      ParentUnitsTail(cat, a, b, 0);
    }
  }

  lemma {:induction false} ParentUnitsTail(cat: Catalogue, a: seq<ItemId>, b: seq<ItemId>, i: nat)
    ensures ParentUnits(cat, a + b, |a| + i) == ParentUnits(cat, b, i)
    decreases |b| - i
  {
    if i < |b| {
      ParentUnitsTail(cat, a, b, i + 1);
    }
  }

  lemma ParentUnitsPlusOne(cat: Catalogue, a: seq<ItemId>, id: ItemId)
    ensures ParentUnits(cat, a + [id], 0) == ParentUnits(cat, a, 0) + Pages(|Listing(cat, id)|)
  {
    ParentUnitsAppend(cat, a, [id], 0);
  }

  lemma {:induction false} UnitsOfScanIds(cat: Catalogue, lo: nat, hi: nat)
    requires lo <= hi <= |cat.products|
    ensures ParentUnits(cat, ScanIds(cat.products, lo, hi), 0) == UnitsOf(cat, lo, hi)
    decreases hi
  {
    if lo < hi {
      UnitsOfScanIds(cat, lo, hi - 1);
      var ids := ScanIds(cat.products, lo, hi - 1);
      if RequiresVariationScan(cat.products[hi - 1]) {
        ParentUnitsPlusOne(cat, ids, cat.products[hi - 1].id);
      }
    }
  }

  lemma {:induction false} UnitsSplit(cat: Catalogue, lo: nat, mid: nat, hi: nat)
    requires lo <= mid <= hi <= |cat.products|
    ensures UnitsOf(cat, lo, hi) == UnitsOf(cat, lo, mid) + UnitsOf(cat, mid, hi)
    decreases hi
  {
    if mid < hi {
      UnitsSplit(cat, lo, mid, hi - 1);
    }
  }

  lemma PageParentsUnits(cat: Catalogue, page: nat)
    requires DistinctIds(cat.products) && page >= 1
    ensures PageParents(cat, PageOf(cat.products, page))
         == UnitsOf(cat, PageStart(|cat.products|, page), PageEnd(|cat.products|, page))
  {
    var items, start, end := PageOf(cat.products, page), PageStart(|cat.products|, page), PageEnd(|cat.products|, page);
    ScanIdsOfPage(cat.products, items, start, |items|);
    ScanIdsDistinct(cat.products, start, end);
    var ids := ScanIds(cat.products, start, end);
    DedupeDistinct(ids, |ids|);
    assert ids[..|ids|] == ids;
    UnitsOfScanIds(cat, start, end);
  }

  function RangeAdded(cat: Catalogue): nat -> nat {
    (page: nat) => UnitsOf(cat, PageStart(|cat.products|, page), PageEnd(|cat.products|, page))
  }

  lemma {:induction false} SumPagesSame(a: nat -> nat, b: nat -> nat, page: nat, last: nat)
    requires forall p: nat | page <= p <= last :: a(p) == b(p)
    ensures SumPages(a, page, last) == SumPages(b, page, last)
    decreases last + 1 - page
  {
    if page <= last {
      SumPagesSame(a, b, page + 1, last);
    }
  }

  lemma {:induction false} RangeSum(cat: Catalogue, page: nat)
    requires 1 <= page <= Pages(|cat.products|)
    ensures SumPages(RangeAdded(cat), page, Pages(|cat.products|))
         == Pages(|cat.products|) - (page - 1) + UnitsOf(cat, PageStart(|cat.products|, page), |cat.products|)
    decreases Pages(|cat.products|) - page
  {
    var n := |cat.products|;
    assert RangeAdded(cat)(page) == UnitsOf(cat, PageStart(n, page), PageEnd(n, page));
    if page < Pages(n) {
      RangeSum(cat, page + 1);
      assert PageEnd(n, page) == PageStart(n, page + 1);
      UnitsSplit(cat, PageStart(n, page), PageEnd(n, page), n);
    } else {
      assert PageEnd(n, page) == n;
    }
  }

  /** With distinct product ids a full scan takes exactly the product pages and the variation pages of all parents. */
  lemma FullScan(cat: Catalogue)
    requires DistinctIds(cat.products)
    ensures Remaining(cat, START) == Pages(|cat.products|) + UnitsOf(cat, 0, |cat.products|)
  {
    forall p: nat | 1 <= p
      ensures ParentsAdded(cat)(p) == RangeAdded(cat)(p)
    {
      PageParentsUnits(cat, p);
    }
    SumPagesSame(ParentsAdded(cat), RangeAdded(cat), 1, Pages(|cat.products|));
    RangeSum(cat, 1);
  }

  // A lone worker always finishes

  predicate AllMappable(cat: Catalogue) {
    (forall p | p in cat.products :: p.mappable)
    && forall p, v | p in cat.products && RequiresVariationScan(p) && v in Listing(cat, p.id) :: v.mappable
  }

  /** What a lone worker does next on a store that is not READY. */
  function NextAction(cat: Catalogue, w: World, k: nat): Action
  {
    if !w.row.active then SetActive(true)
    else if !w.row.state.Syncing? then Ensure(w.row.state)
    else match WorkerAt(w, k)
      case Idle => Claim(k, w.row.revision, if w.row.lease.None? then 0 else w.row.lease.value + LEASE_MS)
      case Claimed(job, claimedAt) => if HoldsLease(w.row, job, claimedAt) then Load(k) else Crash(k)
      case Loaded(_, claimedAt, revision, cursor, done) =>
        if !HoldsLease(w.row, revision, claimedAt) then Crash(k)
        else if done < |UnitPage(cat, cursor)| then Project(k)
        else Advance(k)
      case Failing(_, _) => Crash(k)
  }

  /** The page item that a worker holding the lease has to project next. */
  lemma NextItemWanted(cat: Catalogue, w: World, k: nat)
    requires Inv(cat, w) && AllMappable(cat) && WorkerAt(w, k).Loaded?
    requires HoldsLease(w.row, WorkerAt(w, k).revision, WorkerAt(w, k).claimedAt)
    ensures WorkerAt(w, k).cursor == w.row.cursor
    ensures forall item | item in UnitPage(cat, w.row.cursor) :: item.mappable
  {
    assert ValidWorker(cat, w, WorkerAt(w, k));
    var c := w.row.cursor;
    if c.parents != [] {
      assert IsParent(cat, c.parents[0]);
    }
  }

  /** What keeps any worker from claiming. */
  function Blocked(row: StoreRow): nat {
    (if row.active then 0 else 2) + if row.state.Syncing? then 0 else 1
  }

  /** How far a lone worker is from its next advance. */
  function Distance(cat: Catalogue, row: StoreRow, worker: Worker): nat
  {
    match worker
    case Idle => PAGE_SIZE + 2
    case Claimed(job, claimedAt) => if HoldsLease(row, job, claimedAt) then PAGE_SIZE + 1 else PAGE_SIZE + 3
    case Loaded(_, claimedAt, revision, cursor, done) =>
      if HoldsLease(row, revision, claimedAt) && done <= |UnitPage(cat, cursor)| then |UnitPage(cat, cursor)| - done
      else PAGE_SIZE + 3
    case Failing(_, _) => PAGE_SIZE + 3
  }

  ghost predicate Closer(cat: Catalogue, before: World, after: World, k: nat)
    requires Inv(cat, before) && Inv(cat, after)
  {
    var x, y := Remaining(cat, before.row.cursor), Remaining(cat, after.row.cursor);
    || y < x
    || (y == x && Blocked(after.row) < Blocked(before.row))
    || (y == x && Blocked(after.row) == Blocked(before.row)
        && Distance(cat, after.row, WorkerAt(after, k)) < Distance(cat, before.row, WorkerAt(before, k)))
  }

  lemma UnblockHelps(cat: Catalogue, w: World, k: nat)
    requires Inv(cat, w) && !w.row.state.Ready? && Blocked(w.row) > 0
    ensures var after := Step(cat, w, NextAction(cat, w, k));
            Inv(cat, after) && Closer(cat, w, after, k)
  {
    StepKeepsInv(cat, w, NextAction(cat, w, k));
  }

  lemma AdvanceHelps(cat: Catalogue, w: World, k: nat)
    requires Inv(cat, w) && WorkerAt(w, k).Loaded?
    requires WorkerAt(w, k).done == |UnitPage(cat, WorkerAt(w, k).cursor)|
    requires HoldsLease(w.row, WorkerAt(w, k).revision, WorkerAt(w, k).claimedAt)
    ensures var after := Step(cat, w, Advance(k));
            Inv(cat, after) && Closer(cat, w, after, k)
  {
    assert ValidWorker(cat, w, WorkerAt(w, k));
    StepKeepsInv(cat, w, Advance(k));
    UnitLeavesOneLess(cat, w.row.cursor);
  }

  lemma ProjectHelps(cat: Catalogue, w: World, k: nat)
    requires WorkerAt(w, k).Loaded?
    requires HoldsLease(w.row, WorkerAt(w, k).revision, WorkerAt(w, k).claimedAt)
    requires WorkerAt(w, k).done < |UnitPage(cat, WorkerAt(w, k).cursor)|
    requires UnitPage(cat, WorkerAt(w, k).cursor)[WorkerAt(w, k).done].mappable
    ensures WorkerCloser(cat, w, Step(cat, w, Project(k)), k)
  {
    var worker := WorkerAt(w, k);
    assert WorkerAt(Step(cat, w, Project(k)), k) == worker.(done := worker.done + 1);
  }

  /** The row's cursor stays and the worker gets closer. */
  ghost predicate WorkerCloser(cat: Catalogue, before: World, after: World, k: nat)
  {
    && after.row == before.row.(lease := after.row.lease)
    && Distance(cat, after.row, WorkerAt(after, k)) < Distance(cat, before.row, WorkerAt(before, k))
  }

  lemma OtherStepHelps(cat: Catalogue, w: World, k: nat)
    requires Blocked(w.row) == 0
    requires var a := NextAction(cat, w, k); a.Claim? || a.Load? || a.Crash?
    requires WorkerAt(w, k).Loaded? ==> WorkerAt(w, k).done <= |UnitPage(cat, WorkerAt(w, k).cursor)|
    ensures WorkerCloser(cat, w, Step(cat, w, NextAction(cat, w, k)), k)
  {
    var worker, after := WorkerAt(w, k), Step(cat, w, NextAction(cat, w, k));
    match worker
    case Idle =>
      assert WorkerAt(after, k).Claimed? && HoldsLease(after.row, WorkerAt(after, k).job, WorkerAt(after, k).claimedAt);
    case Loaded(_, _, _, _, _) =>
      assert WorkerAt(after, k).Idle?;
    case Claimed(job, claimedAt) =>
      if HoldsLease(w.row, job, claimedAt) {
        assert WorkerAt(after, k) == Loaded(job, claimedAt, w.row.revision, w.row.cursor, 0);
      }
    case Failing(_, _) =>
      assert WorkerAt(after, k).Idle?;
  }

  lemma WorkerStep(cat: Catalogue, w: World, k: nat)
    requires Inv(cat, w) && AllMappable(cat) && Blocked(w.row) == 0
    requires !NextAction(cat, w, k).Advance?
    ensures WorkerCloser(cat, w, Step(cat, w, NextAction(cat, w, k)), k)
  {
    var worker := WorkerAt(w, k);
    if worker.Loaded? {
      assert ValidWorker(cat, w, worker);
    }
    if NextAction(cat, w, k).Project? {
      NextItemWanted(cat, w, k);
      assert UnitPage(cat, worker.cursor)[worker.done] in UnitPage(cat, w.row.cursor);
      ProjectHelps(cat, w, k);
    } else {
      OtherStepHelps(cat, w, k);
    }
  }

  lemma WorkerHelps(cat: Catalogue, w: World, k: nat)
    requires Inv(cat, w) && AllMappable(cat) && Blocked(w.row) == 0
    requires !NextAction(cat, w, k).Advance?
    ensures var after := Step(cat, w, NextAction(cat, w, k));
            Inv(cat, after) && Closer(cat, w, after, k)
  {
    var after := Step(cat, w, NextAction(cat, w, k));
    assert Inv(cat, after) by {
      StepKeepsInv(cat, w, NextAction(cat, w, k));
      }
    WorkerStep(cat, w, k);
  }

  /**
  A lone worker finishes from every reachable state, whatever other workers have left behind, when every item it
  meets can be mapped.
  */
  lemma {:induction false} LoneWorkerFinishes(cat: Catalogue, w: World, k: nat) returns (actions: seq<Action>)
    requires Inv(cat, w) && AllMappable(cat)
    ensures Run(cat, w, actions).row.state.Ready?
    decreases Remaining(cat, w.row.cursor), Blocked(w.row),
              Distance(cat, w.row, WorkerAt(w, k))
  {
    if w.row.state.Ready? {
      return [];
    }
    var a := NextAction(cat, w, k);
    if Blocked(w.row) > 0 {
      UnblockHelps(cat, w, k);
    } else if a.Advance? {
      AdvanceHelps(cat, w, k);
    } else {
      WorkerHelps(cat, w, k);
    }
    var rest := LoneWorkerFinishes(cat, Step(cat, w, a), k);
    actions := [a] + rest;
    assert actions[1..] == rest;
  }

  /** READY can be reached exactly when every item of a full scan can be mapped. */
  lemma ReadyReachableIff(cat: Catalogue, active: bool, revision: nat)
    ensures (exists actions :: Run(cat, Initial(active, revision), actions).row.state.Ready?) <==> AllMappable(cat)
  {
    if AllMappable(cat) {
      var actions := LoneWorkerFinishes(cat, Initial(active, revision), 0);
    }
    if actions :| Run(cat, Initial(active, revision), actions).row.state.Ready? {
      forall p | p in cat.products
        ensures p.mappable
      {
        ReadyMeansCovered(cat, active, revision, actions, p);
      }
      forall p, v | p in cat.products && RequiresVariationScan(p) && v in Listing(cat, p.id)
        ensures v.mappable
      {
        ReadyMeansCovered(cat, active, revision, actions, v);
      }
    }
  }
}
