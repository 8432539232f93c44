/**
 Changing an order's status from Telegram, on one callback reference that offers several targets.

 Every database statement and every remote call is a step; requests for the same or different targets may run at the
 same time, stop anywhere and be repeated, and the remote status may change at any time.
*/
module StatusWrites {
  import opened Wrappers

  datatype Status = Pending | Processing | OnHold | Completed | Cancelled | Refunded | Failed | Custom(name: string)

  /** `CORE_STATUS_TRANSITIONS`; a status that is not listed offers nothing. */
  function Transitions(s: Status): set<Status> {
    match s
    case Pending => {Processing, OnHold, Cancelled}
    case Processing => {OnHold, Completed, Cancelled, Refunded}
    case OnHold => {Processing, Completed, Cancelled, Refunded}
    case Completed => {Processing, Refunded}
    case Cancelled => {Pending}
    case Refunded => {}
    case Failed => {Pending, OnHold, Cancelled}
    case Custom(_) => {}
  }

  /** No status is offered to itself, and only core statuses are offered. */
  lemma TransitionsAreCore(s: Status, t: Status)
    requires t in Transitions(s)
    ensures t != s && !t.Custom? && !t.Failed?
  {
  }

  /** The table read the other way round: from where each status is offered. */
  lemma OfferedFrom(s: Status, t: Status)
    ensures t in Transitions(s) <==>
              match t
              case Pending => s in {Cancelled, Failed}
              case Processing => s in {Pending, OnHold, Completed}
              case OnHold => s in {Pending, Processing, Failed}
              case Completed => s in {Processing, OnHold}
              case Cancelled => s in {Pending, Processing, OnHold, Failed}
              case Refunded => s in {Processing, OnHold, Completed}
              case Failed => false
              case Custom(_) => false
  {
  }

  datatype Result = Ok | NoOp | Failure(code: string)

  /** The write row of a target: its stored result, if any. */
  datatype Row = Row(allowed: set<Status>, claimedTarget: Option<Status>, writes: map<Status, Option<Result>>)

  function Offer(local: Status): Row {
    Row(Transitions(local), None, map[])
  }

  predicate TargetClaimable(row: Row, target: Status) {
    row.claimedTarget.None? || row.claimedTarget == Some(target)
  }

  function ClaimRow(row: Row, target: Status): Row {
    if TargetClaimable(row, target) then row.(claimedTarget := Some(target)) else row
  }

  function CreateRow(row: Row, target: Status): Row {
    if target in row.writes then row else row.(writes := row.writes[target := None])
  }

  function CompleteRow(row: Row, target: Status, result: Result): Row {
    if target in row.writes then row.(writes := row.writes[target := Some(result)]) else row
  }

  function EraseRow(row: Row): Row {
    row.(writes := map t | t in row.writes :: None)
  }

  predicate MayWrite(live: Status, target: Status) {
    live == target || target in Transitions(live)
  }

  /** A worker after its call, or after failing to make it, has the status of an answer or a later read, or none yet. */
  datatype Worker =
    | Idle
    | Checked(target: Status)
    | Seen(target: Status, live: Status)
    | Claimed(target: Status, live: Status)
    | Created(target: Status, live: Status)
    | Called(target: Status)
    | Answered(target: Status, called: bool, status: Option<Status>)

  datatype Call = Call(target: Status, live: Status)

  /**
  `calls` lists the calls of `updateOrderStatus`, `observed` the statuses that reads and answers have shown, and
  `confirmed` those that its worker has been shown after the write row was created. `missed` says whether an error,
  such as a failing entitlement read, kept a worker from the call. At the end of a request `listed` says whether the
  order is still mirrored and not deleted.
  */
  datatype World = World(
    row: Row,
    remote: Status,
    workers: map<nat, Worker>,
    calls: seq<Call>,
    observed: set<Status>,
    confirmed: set<Status>,
    missed: bool
  )

  datatype Action =
    | RemoteChange(status: Status)
    | Check(worker: nat, target: Status)
    | ReadLive(worker: nat)
    | Claim(worker: nat)
    | Create(worker: nat)
    | Update(worker: nat, applied: bool)
    | MissCall(worker: nat)
    | Answer(worker: nat, lost: bool)
    | ReadAgain(worker: nat)
    | Complete(worker: nat, listed: bool, code: string)
    | CompleteNoOp(worker: nat, listed: bool, code: string)
    | GiveUp(worker: nat, code: string)
    | Erase
    | Crash(worker: nat)

  function WorkerAt(w: World, k: nat): Worker {
    if k in w.workers then w.workers[k] else Idle
  }

  function SetWorker(w: World, k: nat, worker: Worker): World {
    w.(workers := w.workers[k := worker])
  }

  function Initial(local: Status, remote: Status): World {
    World(Offer(local), remote, map[], [], {}, {}, false)
  }

  /** The remote status is shown to the worker of the write row. */
  function Shown(w: World): World {
    w.(observed := w.observed + {w.remote}, confirmed := w.confirmed + {w.remote})
  }

  function Step(w: World, a: Action): World {
    match a
    case RemoteChange(status) => w.(remote := status)
    case Check(k, target) =>
      if WorkerAt(w, k).Idle? && target in w.row.allowed && target !in w.row.writes then
        SetWorker(w, k, Checked(target))
      else w
    case ReadLive(k) =>
      var worker := WorkerAt(w, k);
      if !worker.Checked? then w
      else if MayWrite(w.remote, worker.target) then
        SetWorker(w.(observed := w.observed + {w.remote}), k, Seen(worker.target, w.remote))
      else SetWorker(w, k, Idle)
    case Claim(k) =>
      var worker := WorkerAt(w, k);
      if !worker.Seen? then w
      else if TargetClaimable(w.row, worker.target) then
        SetWorker(w.(row := ClaimRow(w.row, worker.target)), k, Claimed(worker.target, worker.live))
      else SetWorker(w, k, Idle)
    case Create(k) =>
      var worker := WorkerAt(w, k);
      if !worker.Claimed? then w
      else if worker.target in w.row.writes then SetWorker(w, k, Idle)
      else SetWorker(w.(row := CreateRow(w.row, worker.target)), k, Created(worker.target, worker.live))
    case CompleteNoOp(k, listed, code) =>
      var worker := WorkerAt(w, k);
      if worker.Created? && worker.live == worker.target then
        SetWorker(w.(row := CompleteRow(w.row, worker.target, if listed then NoOp else Failure(code))), k, Idle)
      else w
    case GiveUp(k, code) =>
      var worker := WorkerAt(w, k);
      if worker.Created? && worker.live != worker.target then
        SetWorker(w.(row := CompleteRow(w.row, worker.target, Failure(code))), k, Idle)
      else w
    case Update(k, applied) =>
      var worker := WorkerAt(w, k);
      if worker.Created? && worker.live != worker.target then
        SetWorker(w.(remote := if applied then worker.target else w.remote,
                     calls := w.calls + [Call(worker.target, worker.live)]),
                  k, Called(worker.target))
      else w
    case MissCall(k) =>
      var worker := WorkerAt(w, k);
      if worker.Created? && worker.live != worker.target then
        SetWorker(w.(missed := true), k, Answered(worker.target, false, None))
      else w
    case Answer(k, lost) =>
      var worker := WorkerAt(w, k);
      if !worker.Called? then w
      else if lost then SetWorker(w, k, Answered(worker.target, true, None))
      else SetWorker(Shown(w), k, Answered(worker.target, true, Some(w.remote)))
    case ReadAgain(k) =>
      var worker := WorkerAt(w, k);
      if worker.Answered? && worker.status.None? then
        SetWorker(Shown(w), k, Answered(worker.target, worker.called, Some(w.remote)))
      else w
    case Complete(k, listed, code) =>
      var worker := WorkerAt(w, k);
      if !worker.Answered? then w
      else
        var result := if listed && worker.status == Some(worker.target) then Ok else Failure(code);
        SetWorker(w.(row := CompleteRow(w.row, worker.target, result)), k, Idle)
    case Erase => w.(row := EraseRow(w.row))
    case Crash(k) => SetWorker(w, k, Idle)
  }

  /** Has created the write row and not yet finished with it. */
  predicate Owns(worker: Worker) {
    worker.Created? || worker.Called? || worker.Answered?
  }

  predicate ValidWorker(w: World, worker: Worker) {
    match worker
    case Idle => true
    case Checked(target) => target in w.row.allowed
    case Seen(target, live) => target in w.row.allowed && MayWrite(live, target) && live in w.observed
    case Claimed(target, live) =>
      target in w.row.allowed && MayWrite(live, target) && live in w.observed && w.row.claimedTarget == Some(target)
    case Created(target, live) =>
      && target in w.row.allowed && MayWrite(live, target) && live in w.observed && w.row.claimedTarget == Some(target)
      && target in w.row.writes && w.calls == [] && !w.missed
    case Called(target) =>
      && w.row.claimedTarget == Some(target) && target in w.row.writes
      && |w.calls| == 1 && w.calls[0].target == target && !w.missed
    case Answered(target, called, status) =>
      && w.row.claimedTarget == Some(target) && target in w.row.writes
      && (if called then |w.calls| == 1 && w.calls[0].target == target else w.calls == [] && w.missed)
      && (status.Some? ==> status.value in w.confirmed)
  }

  predicate InvRow(w: World, local: Status) {
    && w.row.allowed == Transitions(local)
    && (forall t | t in w.row.writes :: w.row.claimedTarget == Some(t))
    && (w.row.writes == map[] ==> w.calls == [] && !w.missed)
    && (w.missed ==> w.calls == [])
    && w.confirmed <= w.observed
    && |w.calls| <= 1
    && (forall i | 0 <= i < |w.calls| ::
          && w.row.claimedTarget == Some(w.calls[i].target) && w.calls[i].target in w.row.allowed
          && w.calls[i].target in Transitions(w.calls[i].live) && w.calls[i].live in w.observed)
    && (forall t | t in w.row.writes && w.row.writes[t].Some? ::
          && (w.row.writes[t].value.Ok? ==> t in w.confirmed && (|w.calls| == 1 || w.missed))
          && (w.row.writes[t].value.NoOp? ==> t in w.observed))
  }

  ghost predicate InvWorkers(w: World) {
    && (forall k | k in w.workers :: ValidWorker(w, w.workers[k]))
    && (forall j, k | j in w.workers && k in w.workers && Owns(w.workers[j]) && Owns(w.workers[k]) :: j == k)
  }

  ghost predicate Inv(w: World, local: Status) {
    InvRow(w, local) && InvWorkers(w)
  }

  lemma CallKeepsRow(w: World, a: Action, local: Status)
    requires Inv(w, local) && (a.Update? || a.MissCall? || a.Complete? || a.CompleteNoOp? || a.GiveUp?)
    ensures InvRow(Step(w, a), local)
  {
    assert ValidWorker(w, WorkerAt(w, a.worker));
  }

  lemma ClaimKeepsRow(w: World, k: nat, local: Status)
    requires Inv(w, local)
    ensures InvRow(Step(w, Claim(k)), local)
  {
    assert ValidWorker(w, WorkerAt(w, k));
  }

  lemma CreateKeepsRow(w: World, k: nat, local: Status)
    requires Inv(w, local)
    ensures InvRow(Step(w, Create(k)), local)
  {
    assert ValidWorker(w, WorkerAt(w, k));
  }

  lemma EraseKeepsRow(w: World, local: Status)
    requires Inv(w, local)
    ensures InvRow(Step(w, Erase), local)
  {
    assert w.row.writes != map[] ==> exists t :: t in w.row.writes;
    if t :| t in w.row.writes {
      assert t in EraseRow(w.row).writes;
    }
  }

  lemma RowStep(w: World, a: Action, local: Status)
    requires Inv(w, local)
    ensures InvRow(Step(w, a), local)
  {
    if a.Update? || a.MissCall? || a.Complete? || a.CompleteNoOp? || a.GiveUp? {
      CallKeepsRow(w, a, local);
    } else if a.Claim? {
      ClaimKeepsRow(w, a.worker, local);
    } else if a.Create? {
      CreateKeepsRow(w, a.worker, local);
    } else if a.Erase? {
      EraseKeepsRow(w, local);
    } else {
      assert Step(w, a).row == w.row && Step(w, a).calls == w.calls && w.observed <= Step(w, a).observed;
      assert w.confirmed <= Step(w, a).confirmed && Step(w, a).missed == w.missed;
    }
  }

  /** What a valid worker relies on only grows, or is its own. */
  lemma ValidFrame(w: World, after: World, worker: Worker)
    requires ValidWorker(w, worker)
    requires after.row.allowed == w.row.allowed && w.observed <= after.observed && w.confirmed <= after.confirmed
    requires w.row.writes.Keys <= after.row.writes.Keys
    requires w.row.claimedTarget.Some? ==> after.row.claimedTarget == w.row.claimedTarget
    requires Owns(worker) ==> after.calls == w.calls && after.missed == w.missed
    ensures ValidWorker(after, worker)
  {
  }

  lemma CallsStay(w: World, a: Action, local: Status, k: nat)
    requires Inv(w, local) && Owns(WorkerAt(w, k)) && WorkerAt(Step(w, a), k) == WorkerAt(w, k)
    ensures Step(w, a).calls == w.calls && Step(w, a).missed == w.missed
  {
    if (a.Update? || a.MissCall?) && WorkerAt(w, a.worker).Created? {
      assert k == a.worker;
    }
  }

  lemma ClaimStep(w: World, a: Action)
    ensures w.row.claimedTarget.Some? ==> Step(w, a).row.claimedTarget == w.row.claimedTarget
    ensures w.row.writes.Keys <= Step(w, a).row.writes.Keys
    ensures Step(w, a).row.allowed == w.row.allowed
    ensures w.observed <= Step(w, a).observed && w.confirmed <= Step(w, a).confirmed
  {
  }

  lemma BystanderStep(w: World, a: Action, local: Status, k: nat)
    requires Inv(w, local) && WorkerAt(Step(w, a), k) == WorkerAt(w, k)
    ensures ValidWorker(Step(w, a), WorkerAt(w, k))
  {
    assert ValidWorker(w, WorkerAt(w, k));
    ClaimStep(w, a);
    if Owns(WorkerAt(w, k)) {
      CallsStay(w, a, local, k);
    }
    ValidFrame(w, Step(w, a), WorkerAt(w, k));
  }

  lemma WorkerStep(w: World, a: Action, local: Status, k: nat)
    requires Inv(w, local)
    ensures ValidWorker(Step(w, a), WorkerAt(Step(w, a), k))
  {
    assert ValidWorker(w, WorkerAt(w, k));
    if WorkerAt(Step(w, a), k) == WorkerAt(w, k) {
      BystanderStep(w, a, local, k);
    }
  }

  lemma OwnerStep(w: World, a: Action, local: Status, k: nat)
    requires Inv(w, local) && Owns(WorkerAt(Step(w, a), k))
    ensures Owns(WorkerAt(w, k)) || (a == Create(k) && w.row.writes == map[])
  {
    assert ValidWorker(w, WorkerAt(w, k));
  }

  lemma StepKeepsInv(w: World, a: Action, local: Status)
    requires Inv(w, local)
    ensures Inv(Step(w, a), local)
  {
    var after := Step(w, a);
    RowStep(w, a, local);
    forall k | k in after.workers
      ensures ValidWorker(after, after.workers[k])
    {
      WorkerStep(w, a, local, k);
    }
    forall j, k | j in after.workers && k in after.workers && Owns(after.workers[j]) && Owns(after.workers[k])
      ensures j == k
    {
      OwnerStep(w, a, local, j);
      OwnerStep(w, a, local, k);
    }
  }

  function Run(w: World, actions: seq<Action>): World
    decreases |actions|
  {
    if actions == [] then w else Run(Step(w, actions[0]), actions[1..])
  }

  lemma {:induction false} RunKeepsInv(w: World, actions: seq<Action>, local: Status)
    requires Inv(w, local)
    ensures Inv(Run(w, actions), local)
    decreases |actions|
  {
    if actions != [] {
      StepKeepsInv(w, actions[0], local);
      RunKeepsInv(Step(w, actions[0]), actions[1..], local);
    }
  }

  /**
  Over all targets and concurrent requests the store is asked to change the status at most once, to a target that was
  offered for the local status and that the table allows from the live status read for this request.
  */
  lemma UpdatedAtMostOnce(local: Status, remote: Status, actions: seq<Action>)
    ensures var w := Run(Initial(local, remote), actions);
            && |w.calls| <= 1
            && forall call | call in w.calls ::
                 && call.target in Transitions(local) && call.target in Transitions(call.live)
                 && call.target != call.live
                 && call.live in w.observed
  {
    RunKeepsInv(Initial(local, remote), actions, local);
    forall s: Status
      ensures s !in Transitions(s)
    {
    }
  }

  /**
  A stored OK means that the store showed the target after the write row was created; it means that the store was asked,
  for that target, exactly unless an error kept the worker from the call. A stored NO_OP means that the store showed
  the target.
  */
  lemma StoredResultIsTrue(local: Status, remote: Status, actions: seq<Action>, target: Status)
    ensures var w := Run(Initial(local, remote), actions);
            target in w.row.writes && w.row.writes[target].Some? ==>
              && (w.row.writes[target].value.Ok? ==>
                    && target in w.confirmed
                    && ((|w.calls| == 1 && w.calls[0].target == target) <==> !w.missed))
              && (w.row.writes[target].value.NoOp? ==> target in w.observed)
  {
    RunKeepsInv(Initial(local, remote), actions, local);
  }

  /** The other case arises: a worker kept from its call finds the target set by somebody else, and stores OK. */
  lemma OkWithoutCall(w: World, k: nat, local: Status, code: string)
    requires Inv(w, local) && WorkerAt(w, k).Created? && WorkerAt(w, k).live != WorkerAt(w, k).target
    ensures var target := WorkerAt(w, k).target;
            var moved := Step(Step(w, MissCall(k)), RemoteChange(target));
            var after := Step(Step(moved, ReadAgain(k)), Complete(k, true, code));
            after.calls == [] && target in after.row.writes && after.row.writes[target] == Some(Ok)
  {
    assert ValidWorker(w, WorkerAt(w, k));
    var target := WorkerAt(w, k).target;
    var moved := Step(Step(w, MissCall(k)), RemoteChange(target));
    assert WorkerAt(moved, k) == Answered(target, false, None);
    assert WorkerAt(Step(moved, ReadAgain(k)), k) == Answered(target, false, Some(target));
  }

  /** OK is stored exactly when the worker of the write row was shown the target last and the order is still there. */
  lemma ShownIsStored(w: World, k: nat, listed: bool, code: string, local: Status)
    requires Inv(w, local) && WorkerAt(w, k).Answered?
    ensures var worker, after := WorkerAt(w, k), Step(w, Complete(k, listed, code));
            && worker.target in w.row.writes && after.calls == w.calls && WorkerAt(after, k) == Idle
            && after.row == w.row.(writes := w.row.writes[worker.target :=
                 Some(if listed && worker.status == Some(worker.target) then Ok else Failure(code))])
  {
    assert ValidWorker(w, WorkerAt(w, k));
  }

  /**
   Up to the write row: an offered target that is the live status, or is offered from it, is claimed and gets its
   row.
  */
  lemma RequestIsTaken(local: Status, remote: Status, target: Status, k: nat)
    requires target in Transitions(local) && (remote == target || target in Transitions(remote))
    ensures var created := Step(Step(Step(Step(Initial(local, remote), Check(k, target)), ReadLive(k)), Claim(k)),
                                Create(k));
            && created.row == Row(Transitions(local), Some(target), map[target := None])
            && WorkerAt(created, k) == Created(target, remote) && created.calls == [] && created.remote == remote
  {
    var seen := Step(Step(Initial(local, remote), Check(k, target)), ReadLive(k));
    assert WorkerAt(seen, k) == Seen(target, remote);
    var claimed := Step(seen, Claim(k));
    assert WorkerAt(claimed, k) == Claimed(target, remote) && claimed.row.writes == map[];
  }

  /** From there, undisturbed: the store is asked once, and a lost answer is replaced by another read. */
  lemma RequestIsAnswered(w: World, k: nat, applied: bool, lost: bool)
    requires WorkerAt(w, k).Created? && WorkerAt(w, k).live != WorkerAt(w, k).target
    ensures var target := WorkerAt(w, k).target;
            var first := Step(Step(w, Update(k, applied)), Answer(k, lost));
            var answered := Step(first, ReadAgain(k));
            && WorkerAt(first, k) == Answered(target, true, if lost then None else Some(first.remote))
            && answered.calls == w.calls + [Call(target, WorkerAt(w, k).live)] && answered.row == w.row
            && answered.remote == (if applied then target else w.remote)
            && WorkerAt(answered, k) == Answered(target, true, Some(answered.remote))
  {
    var called := Step(w, Update(k, applied));
    assert WorkerAt(called, k) == Called(WorkerAt(w, k).target);
  }

  /** Then the answer is stored; a store that does not take the target, or an order that is gone, makes it a failure. */
  lemma RequestIsCarriedOut(w: World, k: nat, applied: bool, lost: bool, listed: bool, code: string)
    requires WorkerAt(w, k).Created? && WorkerAt(w, k).live != WorkerAt(w, k).target
    requires WorkerAt(w, k).target in w.row.writes && w.remote != WorkerAt(w, k).target
    ensures var target := WorkerAt(w, k).target;
            var answered := Step(Step(Step(w, Update(k, applied)), Answer(k, lost)), ReadAgain(k));
            Step(answered, Complete(k, listed, code)).row.writes ==
              w.row.writes[target := Some(if applied && listed then Ok else Failure(code))]
  {
    RequestIsAnswered(w, k, applied, lost);
  }

  /** A target that the store shows already is stored as NO_OP if the order is there, and the store is not asked. */
  lemma NothingToDo(w: World, k: nat, listed: bool, code: string)
    requires WorkerAt(w, k).Created? && WorkerAt(w, k).live == WorkerAt(w, k).target
    requires WorkerAt(w, k).target in w.row.writes
    ensures var after, result := Step(w, CompleteNoOp(k, listed, code)), if listed then NoOp else Failure(code);
            && after.row == w.row.(writes := w.row.writes[WorkerAt(w, k).target := Some(result)])
            && after.calls == w.calls && after.remote == w.remote
            && Step(w, Update(k, listed)) == w && Step(w, MissCall(k)) == w && Step(w, GiveUp(k, code)) == w
  {
  }

  /** What a request needs to get on: an offered target without a write row, then a live status that allows it. */
  lemma RequestGetsOnIff(w: World, k: nat, target: Status)
    requires WorkerAt(w, k) == Idle
    ensures var checked := Step(w, Check(k, target));
            var seen := Step(checked, ReadLive(k));
            var claimed := Step(seen, Claim(k));
            && checked.row == seen.row == w.row
            && (WorkerAt(checked, k) == Checked(target) <==> target in w.row.allowed && target !in w.row.writes)
            && (WorkerAt(seen, k) == Seen(target, w.remote) <==>
                  && target in w.row.allowed && target !in w.row.writes
                  && (w.remote == target || target in Transitions(w.remote)))
            && (WorkerAt(claimed, k) == Claimed(target, w.remote) <==>
                  && target in w.row.allowed && target !in w.row.writes
                  && (w.remote == target || target in Transitions(w.remote))
                  && (w.row.claimedTarget == None || w.row.claimedTarget == Some(target)))
            && claimed.row == if WorkerAt(claimed, k) == Claimed(target, w.remote)
                              then w.row.(claimedTarget := Some(target)) else w.row
  {
  }

  /** Who does not create the write row stops; a worker that is kept from the call stores what it reads instead. */
  lemma OthersStop(w: World, k: nat, code: string)
    ensures WorkerAt(w, k).Claimed? && WorkerAt(w, k).target in w.row.writes ==>
              Step(w, Create(k)) == SetWorker(w, k, Idle)
    ensures WorkerAt(w, k).Created? && WorkerAt(w, k).live != WorkerAt(w, k).target
            && WorkerAt(w, k).target in w.row.writes ==>
              var target := WorkerAt(w, k).target;
              && Step(w, GiveUp(k, code)).row == w.row.(writes := w.row.writes[target := Some(Failure(code))])
              && WorkerAt(Step(w, MissCall(k)), k) == Answered(target, false, None)
              && Step(w, CompleteNoOp(k, true, code)) == w && Step(w, CompleteNoOp(k, false, code)) == w
  {
  }

  /** Out of its turn a worker does nothing. */
  lemma OutOfTurn(w: World, k: nat, target: Status, flag: bool, code: string)
    ensures WorkerAt(w, k) != Idle ==> Step(w, Check(k, target)) == w
    ensures !WorkerAt(w, k).Checked? ==> Step(w, ReadLive(k)) == w
    ensures !WorkerAt(w, k).Seen? ==> Step(w, Claim(k)) == w
    ensures !WorkerAt(w, k).Claimed? ==> Step(w, Create(k)) == w
    ensures !WorkerAt(w, k).Created? ==>
              && Step(w, CompleteNoOp(k, flag, code)) == w && Step(w, GiveUp(k, code)) == w
              && Step(w, Update(k, flag)) == w
              && Step(w, MissCall(k)) == w
    ensures !WorkerAt(w, k).Called? ==> Step(w, Answer(k, flag)) == w
    ensures !WorkerAt(w, k).Answered? ==> Step(w, ReadAgain(k)) == w && Step(w, Complete(k, flag, code)) == w
    ensures WorkerAt(w, k).Answered? && WorkerAt(w, k).status != None ==> Step(w, ReadAgain(k)) == w
  {
  }

  /** An erasure forgets the answers, and nothing else: what was written is not written again. */
  lemma ErasureForgets(w: World)
    ensures var after := Step(w, Erase);
            && after == w.(row := after.row) && after.row.allowed == w.row.allowed
            && after.row.claimedTarget == w.row.claimedTarget && after.row.writes.Keys == w.row.writes.Keys
            && forall t | t in after.row.writes :: after.row.writes[t] == None
  {
  }

  /** The first target claimed stays the only one that is ever written. */
  lemma {:induction false} OneTarget(w: World, actions: seq<Action>, local: Status)
    requires Inv(w, local) && w.row.claimedTarget.Some?
    ensures var after := Run(w, actions);
            && after.row.claimedTarget == w.row.claimedTarget
            && forall t | t in after.row.writes :: Some(t) == w.row.claimedTarget
    decreases |actions|
  {
    if actions != [] {
      ClaimStep(w, actions[0]);
      StepKeepsInv(w, actions[0], local);
      OneTarget(Step(w, actions[0]), actions[1..], local);
    }
  }

  /** The service's statements on one reference and its write rows. */
  class StatusReference {
    var row: Row

    constructor (local: Status)
      ensures row == Offer(local)
    {
      row := Row(Transitions(local), None, map[]);
    }

    method Claim(target: Status) returns (claimed: bool)
      modifies this
      ensures claimed == TargetClaimable(old(row), target) && row == ClaimRow(old(row), target)
      ensures claimed <==> old(row).claimedTarget == None || old(row).claimedTarget == Some(target)
      ensures row == if claimed then Row(old(row).allowed, Some(target), old(row).writes) else old(row)
    {
      claimed := row.claimedTarget == None || row.claimedTarget == Some(target);
      if claimed {
        row := Row(row.allowed, Some(target), row.writes);
      }
    }

    /** `create` under the unique key of reference and target. */
    method Create(target: Status) returns (created: bool)
      modifies this
      ensures created == (target !in old(row).writes) && row == CreateRow(old(row), target)
      ensures row == if created then old(row).(writes := old(row).writes[target := None]) else old(row)
    {
      created := target !in row.writes;
      if created {
        row := Row(row.allowed, row.claimedTarget, row.writes[target := None]);
      }
    }

    /** Up to the remote call, when nothing else runs: what is answered at once, or that the call is to be made. */
    method Begin(target: Status, live: Status) returns (answer: Option<Result>, call: bool)
      modifies this
      ensures call ==> target in old(row).allowed && target in Transitions(live) && target !in old(row).writes
                       && row == CreateRow(ClaimRow(old(row), target), target) && answer.None?
      ensures !call && answer == Some(NoOp) && old(row).writes == map[] ==>
                live == target && row.writes == map[target := Some(NoOp)]
      ensures target in old(row).writes ==>
                && row == old(row)
                && (target in old(row).allowed ==>
                      answer == if old(row).writes[target].Some? then old(row).writes[target]
                                else Some(Failure("RETRYABLE")))
      ensures target !in old(row).allowed ==> answer == Some(Failure("INVALID_TARGET")) && row == old(row)
      ensures call <==>
                && target in old(row).allowed && target !in old(row).writes
                && live != target && target in Transitions(live)
                && (old(row).claimedTarget == None || old(row).claimedTarget == Some(target))
      ensures call ==> row == Row(old(row).allowed, Some(target), old(row).writes[target := None])
      ensures target !in old(row).writes ==>
                && (answer == Some(NoOp) <==>
                      && target in old(row).allowed && live == target
                      && (old(row).claimedTarget == None || old(row).claimedTarget == Some(target)))
                && (answer == Some(NoOp) ==>
                      row == Row(old(row).allowed, Some(target), old(row).writes[target := Some(NoOp)]))
                && (answer == Some(Failure("INVALID_TARGET")) <==> !call && answer != Some(NoOp))
                && (!call && answer != Some(NoOp) ==> row == old(row))
    {
      call := false;
      if target !in row.allowed {
        return Some(Failure("INVALID_TARGET")), false;
      }
      if target in row.writes {
        return if row.writes[target].Some? then row.writes[target] else Some(Failure("RETRYABLE")), false;
      }
      if live != target && target !in Transitions(live) {
        return Some(Failure("INVALID_TARGET")), false;
      }
      var claimed := Claim(target);
      if !claimed {
        return Some(Failure("INVALID_TARGET")), false;
      }
      var _ := Create(target);
      if live == target {
        row := Row(row.allowed, row.claimedTarget, row.writes[target := Some(NoOp)]);
        return Some(NoOp), false;
      }
      return None, true;
    }
  }
}
