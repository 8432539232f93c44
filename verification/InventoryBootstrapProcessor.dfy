/** The processor's and the scheduler's methods on the row of one store. */
module InventoryBootstrapProcessor {
  import opened Common
  import opened Wrappers
  import opened InventoryBootstrap

  datatype UnitOutcome = UnitDone(ready: bool) | UnitFailed

  /** What becomes of a job that could not claim its revision. */
  datatype Unclaimed = Unavailable | AlreadyReady | EnqueueNewer(revision: nat) | Leased | NoLongerActive

  datatype JobOutcome = Worked(unit: UnitOutcome) | NotClaimed(reason: Unclaimed)

  function Resolution(row: StoreRow, job: nat): Unclaimed {
    if !row.active then Unavailable
    else if row.state.Ready? then AlreadyReady
    else if row.revision > job then EnqueueNewer(row.revision)
    else if row.revision == job && row.lease.Some? then Leased
    else NoLongerActive
  }

  /**
  A job that is turned away does not strand a running scan: the scan's current revision is enqueued, or another worker
  holds its lease, unless the job names a revision that does not exist yet.
  */
  lemma NoScanStranded(row: StoreRow, job: nat, now: int)
    requires row.active && row.state.Syncing? && !Claimable(row, job, now) && job <= row.revision
    ensures Resolution(row, job) == EnqueueNewer(row.revision)
            || (Resolution(row, job).Leased? && row.lease.value > now - LEASE_MS)
  {
  }

  /** How many of the items from `i` on are projected before one cannot be mapped. */
  function MappedFrom(page: seq<CatalogueItem>, i: nat): nat
    requires i <= |page|
    decreases |page| - i
  {
    if i < |page| && page[i].mappable then 1 + MappedFrom(page, i + 1) else 0
  }

  lemma {:induction false} MappedFromMeans(page: seq<CatalogueItem>, i: nat)
    requires i <= |page|
    ensures i + MappedFrom(page, i) <= |page|
    ensures forall j | i <= j < i + MappedFrom(page, i) :: page[j].mappable
    ensures i + MappedFrom(page, i) < |page| ==> !page[i + MappedFrom(page, i)].mappable
    decreases |page| - i
  {
    if i < |page| && page[i].mappable {
      MappedFromMeans(page, i + 1);
    }
  }

  lemma {:induction false} DedupeEmptyIff(ids: seq<ItemId>, n: nat)
    requires n <= |ids|
    ensures Dedupe(ids, n) == [] <==> n == 0
    decreases n
  {
    if n > 0 {
      DedupeEmptyIff(ids, n - 1);
    }
  }

  /** The row and the projected items after one unit of work on a loaded snapshot. */
  function UnitOn(cat: Catalogue, row: StoreRow, projected: set<CatalogueItem>, revision: nat, cursor: Cursor,
                  claimedAt: int): (StoreRow, set<CatalogueItem>, UnitOutcome)
  {
    var page := UnitPage(cat, cursor);
    var next := NextCursor(cat, cursor);
    MappedFromMeans(page, 0);
    var mapped := MappedFrom(page, 0);
    var now := projected + set item | item in page[..mapped];
    if mapped < |page| || !HoldsLease(row, revision, claimedAt) then (row, now, UnitFailed)
    else (AdvanceRow(row, revision, claimedAt, next, Drained(next)), now, UnitDone(Drained(next)))
  }

  lemma {:induction false} AllMapped(page: seq<CatalogueItem>, i: nat)
    requires i <= |page|
    ensures (forall j | i <= j < |page| :: page[j].mappable) <==> MappedFrom(page, i) == |page| - i
    decreases |page| - i
  {
    MappedFromMeans(page, i);
    if i < |page| {
      AllMapped(page, i + 1);
      MappedFromMeans(page, i + 1);
    }
  }

  /**
   A unit is done exactly when every item of its page can be mapped and the lease is still the worker's. It then has
   projected the whole page and moved the cursor under the next revision. A failed unit leaves the row; the items before
   the first that cannot be mapped stay projected.
  */
  lemma UnitMeans(cat: Catalogue, row: StoreRow, projected: set<CatalogueItem>, revision: nat, cursor: Cursor,
                  claimedAt: int)
    ensures var page := UnitPage(cat, cursor);
            var (after, seen, outcome) := UnitOn(cat, row, projected, revision, cursor, claimedAt);
            && (outcome.UnitDone? <==>
                  && (forall j | 0 <= j < |page| :: page[j].mappable)
                  && row.state == Syncing && row.revision == revision && row.lease == Some(claimedAt))
            && (outcome.UnitDone? ==>
                  && after == StoreRow(row.active, if outcome.ready then Ready else Syncing, revision + 1, None,
                                       NextCursor(cat, cursor), None)
                  && forall j | 0 <= j < |page| :: page[j] in seen)
            && (outcome.UnitFailed? ==> after == row)
            && projected <= seen && (forall item | item in seen :: item in projected || item in page)
            && (forall j, i | 0 <= i <= j < |page| && !page[i].mappable && page[j] in seen && page[j] !in projected ::
                  page[j] in page[..i])
            && forall j | 0 <= j < |page| && (forall i | 0 <= i <= j :: page[i].mappable) :: page[j] in seen
  {
    var page := UnitPage(cat, cursor);
    MappedFromMeans(page, 0);
    AllMapped(page, 0);
    forall j | 0 <= j < |page| && (forall i | 0 <= i <= j :: page[i].mappable)
      ensures j < MappedFrom(page, 0) && page[j] in page[..MappedFrom(page, 0)]
    {
      assert page[j] == page[..MappedFrom(page, 0)][j];
    }
  }

  class BootstrapStore {
    var row: StoreRow
    var projected: set<CatalogueItem>

    constructor (active: bool, revision: nat)
      ensures row == Initial(active, revision).row && projected == {}
    {
      row := StoreRow(active, Uninitialized, revision, None, START, None);
      projected := {};
    }

    method Claim(revision: nat, now: int) returns (claimed: bool)
      modifies this`row
      ensures claimed == Claimable(old(row), revision, now) && row == ClaimRow(old(row), revision, now)
      ensures claimed <==>
                && old(row).active && old(row).state == Syncing && old(row).revision == revision
                && (old(row).lease == None || old(row).lease.value + 30_000 <= now)
      ensures row == if claimed then old(row).(lease := Some(now)) else old(row)
    {
      claimed := row.active && row.state == Syncing && row.revision == revision;
      if claimed && row.lease.Some? {
        claimed := row.lease.value <= now - LEASE_MS;
      }
      if claimed {
        row := row.(lease := Some(now));
      }
    }

    method Advance(revision: nat, claimedAt: int, next: Cursor, ready: bool) returns (advanced: bool)
      modifies this`row
      ensures advanced == HoldsLease(old(row), revision, claimedAt)
              && row == AdvanceRow(old(row), revision, claimedAt, next, ready)
      ensures advanced <==>
                old(row).state == Syncing && old(row).revision == revision && old(row).lease == Some(claimedAt)
      ensures row == if !advanced then old(row)
                     else StoreRow(old(row).active, if ready then Ready else Syncing, revision + 1, None, next, None)
    {
      advanced := row.state == Syncing && row.revision == revision && row.lease == Some(claimedAt);
      if advanced {
        row := StoreRow(row.active, if ready then Ready else Syncing, row.revision + 1, None, next, None);
      }
    }

    /** `projectBootstrapPayload` for the items of a page, in order, up to the first that cannot be mapped. */
    method ProjectPage(page: seq<CatalogueItem>) returns (complete: bool, parentIds: seq<ItemId>)
      modifies this`projected
      ensures complete <==> MappedFrom(page, 0) == |page|
      ensures MappedFrom(page, 0) <= |page|
      ensures projected == old(projected) + set item | item in page[..MappedFrom(page, 0)]
      ensures complete ==> parentIds == ScanIds(page, 0, |page|)
    {
      MappedFromMeans(page, 0);
      parentIds := [];
      for i := 0 to |page|
        invariant i <= MappedFrom(page, 0)
        invariant projected == old(projected) + set item | item in page[..i]
        invariant parentIds == ScanIds(page, 0, i)
      {
        if !page[i].mappable {
          return false, parentIds;
        }
        assert page[..i + 1] == page[..i] + [page[i]];
        projected := projected + {page[i]};
        if RequiresVariationScan(page[i]) {
          parentIds := parentIds + [page[i].id];
        }
      }
      complete := true;
    }

    method ProcessOneUnit(cat: Catalogue, revision: nat, cursor: Cursor, claimedAt: int) returns (outcome: UnitOutcome)
        modifies this
      ensures (row, projected, outcome) == UnitOn(cat, old(row), old(projected), revision, cursor, claimedAt)
    {
      var next, ready := cursor, true;
      if cursor.parents != [] {
        var page := PageOf(Listing(cat, cursor.parents[0]), cursor.variationPage);
        var complete, _ := ProjectPage(page);
        if !complete {
          return UnitFailed;
        }
        var parentComplete := |page| < PAGE_SIZE;
        var remainingParents := if parentComplete then cursor.parents[1..] else cursor.parents;
        ready := cursor.productsDone && remainingParents == [];
        next := cursor.(parents := remainingParents,
                        variationPage := if parentComplete then 1 else cursor.variationPage + 1);
      } else if !cursor.productsDone {
        var page := PageOf(cat.products, cursor.productPage);
        var complete, parentIds := ProjectPage(page);
        if !complete {
          return UnitFailed;
        }
        var productsDone := |page| < PAGE_SIZE;
        ready := productsDone && parentIds == [];
        DedupeEmptyIff(parentIds, |parentIds|);
        next := Cursor(cursor.productPage + 1, productsDone, Dedupe(parentIds, |parentIds|), 1);
      }
      assert next == NextCursor(cat, cursor) && ready == Drained(next);
      assert projected ==
               old(projected) + set item | item in UnitPage(cat, cursor)[..MappedFrom(UnitPage(cat, cursor), 0)];
      var advanced := Advance(revision, claimedAt, next, ready);
      outcome := if advanced then UnitDone(ready) else UnitFailed;
    }

    method ReleaseLease(revision: nat, claimedAt: int)
      modifies this`row
      ensures row == ReleaseRow(old(row), revision, claimedAt)
      ensures row == if old(row).state == Syncing && old(row).revision == revision && old(row).lease == Some(claimedAt)
                     then old(row).(lease := None)
                     else old(row)
    {
      if row.state == Syncing && row.revision == revision && row.lease == Some(claimedAt) {
        row := row.(lease := None);
      }
    }

    method MarkFailed(revision: nat, code: string)
      modifies this`row
      ensures row == MarkFailedRow(old(row), revision, code)
      ensures row == if old(row).state == Syncing && old(row).revision == revision
                     then old(row).(state := Failed, lease := None, failureCode := Some(code))
                     else old(row)
    {
      if row.state == Syncing && row.revision == revision {
        row := row.(state := Failed, lease := None, failureCode := Some(code));
      }
    }

    method ResolveUnclaimed(job: nat) returns (reason: Unclaimed)
      ensures reason == Resolution(row, job)
      ensures reason == Unavailable <==> !row.active
      ensures reason == AlreadyReady <==> row.active && row.state == Ready
      ensures reason.EnqueueNewer? <==> row.active && row.state != Ready && row.revision > job
      ensures reason.EnqueueNewer? ==> reason.revision == row.revision
      ensures reason == Leased <==> row.active && row.state != Ready && row.revision == job && row.lease != None
    {
      if !row.active {
        return Unavailable;
      }
      if row.state == Ready {
        return AlreadyReady;
      }
      if row.revision > job {
        return EnqueueNewer(row.revision);
      }
      reason := if row.revision == job && row.lease != None then Leased else NoLongerActive;
    }

    /**
     `process` when nothing else runs: a failing unit gives the lease back. While a lease is younger than thirty seconds
     no other job gets in; one that is absent or as old as that is taken.
    */
    method Process(cat: Catalogue, job: nat, now: int) returns (outcome: JobOutcome)
      modifies this
      ensures !Claimable(old(row), job, now) ==>
                outcome == NotClaimed(Resolution(old(row), job)) && row == old(row) && projected == old(projected)
      ensures Claimable(old(row), job, now) ==>
                var (after, seen, result) :=
                      UnitOn(cat, ClaimRow(old(row), job, now), old(projected), job, old(row).cursor, now);
                && outcome == Worked(result) && projected == seen
                && row == if result.UnitDone? then after else old(row).(lease := None)
      ensures old(row).lease.Some? && now < old(row).lease.value + 30_000 ==>
                && row == old(row) && projected == old(projected)
                && (old(row).active && old(row).state == Syncing && old(row).revision == job ==>
                      outcome == NotClaimed(Leased))
      ensures outcome.Worked? <==>
                && old(row).active && old(row).state == Syncing && old(row).revision == job
                && (old(row).lease == None || old(row).lease.value + 30_000 <= now)
    {
      var claimed := Claim(job, now);
      if !claimed {
        var reason := ResolveUnclaimed(job);
        return NotClaimed(reason);
      }
      var result := ProcessOneUnit(cat, row.revision, row.cursor, now);
      if result.UnitFailed? {
        ReleaseLease(job, now);
      }
      outcome := Worked(result);
    }

    /** `ensureInitialized` when nothing else runs: what is enqueued afterwards is the new revision. */
    method EnsureInitialized(enqueueWorks: bool) returns (enqueued: Option<nat>)
      modifies this`row
      ensures !old(row).active || old(row).state.Ready? ==> enqueued.None? && row == old(row)
      ensures old(row).active && !old(row).state.Ready? ==>
                var started := EnsureRow(old(row), old(row).state);
                && row == EnqueuedRow(started, started.revision, enqueueWorks)
                && enqueued == (if enqueueWorks then Some(row.revision) else None)
                && row.state.Syncing? && row.cursor == old(row).cursor
                && row.revision == old(row).revision + (if old(row).state.Syncing? then 0 else 1)
                && row.active && row.lease == (if old(row).state.Syncing? && enqueueWorks then old(row).lease else None)
                && row.failureCode ==
                     if !enqueueWorks then Some("bootstrap-enqueue-failed")
                     else if old(row).state.Syncing? && old(row).failureCode != Some("bootstrap-enqueue-failed")
                     then old(row).failureCode
                     else None
    {
      if !row.active || row.state == Ready {
        return None;
      }
      if row.state == Uninitialized || row.state == Failed {
        row := row.(state := Syncing, revision := row.revision + 1, lease := None, failureCode := None);
      }
      if enqueueWorks {
        if row.failureCode == Some(ENQUEUE_FAILED) {
          row := row.(failureCode := None);
        }
        enqueued := Some(row.revision);
      } else {
        row := row.(lease := None, failureCode := Some(ENQUEUE_FAILED));
        enqueued := None;
      }
    }
  }

  /** The actions of a worker that runs one unit undisturbed: claim, load, project item by item, advance. */
  function ProjectActions(k: nat, n: nat): seq<Action> {
    if n == 0 then [Advance(k)] else [Project(k)] + ProjectActions(k, n - 1)
  }

  lemma ProjectEffect(cat: Catalogue, w: World, k: nat)
    requires WorkerAt(w, k).Loaded? && WorkerAt(w, k).done < |UnitPage(cat, WorkerAt(w, k).cursor)|
    requires UnitPage(cat, WorkerAt(w, k).cursor)[WorkerAt(w, k).done].mappable
    ensures var worker, after := WorkerAt(w, k), Step(cat, w, Project(k));
            && after.row == w.row && WorkerAt(after, k) == worker.(done := worker.done + 1)
            && after.projected == w.projected + {UnitPage(cat, worker.cursor)[worker.done]}
  {
  }

  ghost predicate AfterUnit(cat: Catalogue, w: World, after: World, worker: Worker)
    requires worker.Loaded? && worker.done <= |UnitPage(cat, worker.cursor)|
  {
    var next := NextCursor(cat, worker.cursor);
    && after.projected == w.projected + (set item | item in UnitPage(cat, worker.cursor)[worker.done..])
    && after.row == AdvanceRow(w.row, worker.revision, worker.claimedAt, next, Drained(next))
  }

  lemma AdvanceEffect(cat: Catalogue, w: World, k: nat)
    requires WorkerAt(w, k).Loaded? && WorkerAt(w, k).done == |UnitPage(cat, WorkerAt(w, k).cursor)|
    ensures AfterUnit(cat, w, Step(cat, w, Advance(k)), WorkerAt(w, k))
  {
  }

  lemma AfterOneMore(cat: Catalogue, w: World, mid: World, after: World, worker: Worker)
    requires worker.Loaded? && worker.done < |UnitPage(cat, worker.cursor)|
    requires mid.row == w.row && mid.projected == w.projected + {UnitPage(cat, worker.cursor)[worker.done]}
    requires AfterUnit(cat, mid, after, worker.(done := worker.done + 1))
    ensures AfterUnit(cat, w, after, worker)
  {
    var page := UnitPage(cat, worker.cursor);
    assert page[worker.done..] == [page[worker.done]] + page[worker.done + 1..];
  }

  /** A unit of the processor is a run of the protocol: the same row and the same items projected. */
  lemma {:induction false} UnitFollowsSteps(cat: Catalogue, w: World, k: nat, n: nat)
    requires WorkerAt(w, k).Loaded?
    requires WorkerAt(w, k).done + n == |UnitPage(cat, WorkerAt(w, k).cursor)|
    requires forall item | item in UnitPage(cat, WorkerAt(w, k).cursor) :: item.mappable
    ensures AfterUnit(cat, w, Run(cat, w, ProjectActions(k, n)), WorkerAt(w, k))
    decreases n
  {
    var worker, page := WorkerAt(w, k), UnitPage(cat, WorkerAt(w, k).cursor);
    if n == 0 {
      AdvanceEffect(cat, w, k);
      assert Run(cat, w, [Advance(k)]) == Step(cat, w, Advance(k));
    } else {
      assert page[worker.done] in page;
      RunSplits(cat, w, Project(k), ProjectActions(k, n - 1));
      ProjectEffect(cat, w, k);
      var mid := Step(cat, w, Project(k));
      UnitFollowsSteps(cat, mid, k, n - 1);
      AfterOneMore(cat, w, mid, Run(cat, mid, ProjectActions(k, n - 1)), worker);
    }
  }

  lemma RunSplits(cat: Catalogue, w: World, a: Action, rest: seq<Action>)
    ensures Run(cat, w, [a] + rest) == Run(cat, Step(cat, w, a), rest)
  {
    assert ([a] + rest)[1..] == rest;
  }

  /** So a method that works a unit on a freshly loaded snapshot has the effect of those steps. */
  lemma UnitIsRun(cat: Catalogue, w: World, k: nat)
    requires WorkerAt(w, k).Loaded? && WorkerAt(w, k).done == 0
    requires forall item | item in UnitPage(cat, WorkerAt(w, k).cursor) :: item.mappable
    ensures var worker := WorkerAt(w, k);
            var after := Run(cat, w, ProjectActions(k, |UnitPage(cat, worker.cursor)|));
            var (row, projected, _) :=
              UnitOn(cat, w.row, w.projected, worker.revision, worker.cursor, worker.claimedAt);
            after.row == row && after.projected == projected
  {
    var worker, page := WorkerAt(w, k), UnitPage(cat, WorkerAt(w, k).cursor);
    UnitFollowsSteps(cat, w, k, |page|);
    forall j | 0 <= j < |page|
      ensures page[j].mappable
    {
      assert page[j] in page;
    }
    AllMapped(page, 0);
    assert page[..|page|] == page == page[0..];
  }
}
