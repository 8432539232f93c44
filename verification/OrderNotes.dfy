/**
 Adding a note to an order from Telegram: prepare, confirm or cancel, all on one callback reference.

 Each database transaction, the remote call and its answer are separate steps. Calls may run at the same time, stop
 between any two steps, and be repeated; the clock never goes back.
*/
module OrderNotes {
  import Common
  import opened Wrappers

  type Text = string

  const IN_FLIGHT_AMBIGUITY_MS: int := 60_000

  datatype Purpose = NoteInput | NoteConfirm

  /** Encryption is an invertible pair: the body is kept as its text. */
  datatype Reference = Reference(purpose: Purpose, body: Option<Text>, fingerprint: Option<Common.Digest<Text>>,
                                 claimedAt: Option<int>, expiresAt: int)

  datatype ActionState = InFlight | Succeeded | Failed | Ambiguous

  /** `resultStored` says whether the row holds the answer given to the caller. */
  datatype NoteAction = NoteAction(state: ActionState, resultStored: bool, startedAt: int)

  datatype Row = Row(reference: Reference, action: Option<NoteAction>)

  // One transaction each

  predicate Preparable(row: Row, now: int) {
    row.reference.purpose.NoteInput? && row.reference.expiresAt > now
  }

  function PrepareRow(row: Row, note: Text, now: int): Row {
    if Preparable(row, now) then
      row.(reference := row.reference.(purpose := NoteConfirm, body := Some(note),
                                       fingerprint := Some(Common.Hash(note))))
    else row
  }

  /** The second look of a prepare whose update hit nothing. */
  predicate PreparedSame(row: Row, note: Text) {
    row.reference.purpose.NoteConfirm? && row.reference.fingerprint == Some(Common.Hash(note))
  }

  predicate Cancellable(row: Row, now: int) {
    row.reference.claimedAt.None? && row.reference.expiresAt > now
  }

  function CancelRow(row: Row, now: int): Row {
    if Cancellable(row, now) then row.(reference := row.reference.(expiresAt := 0, body := None)) else row
  }

  /** What confirm requires of the reference it reads before the remote read. */
  predicate Confirmable(row: Row, now: int) {
    && row.reference.purpose.NoteConfirm? && row.reference.fingerprint.Some? && row.action.None?
    && row.reference.expiresAt > now && row.reference.body.Some?
    && Common.Hash(row.reference.body.value) == row.reference.fingerprint.value
  }

  predicate NoteClaimable(row: Row, now: int) {
    && row.reference.purpose.NoteConfirm? && row.reference.claimedAt.None? && row.reference.expiresAt > now
    && row.action.None?
  }

  function ClaimRow(row: Row, now: int): Row {
    if NoteClaimable(row, now) then
      Row(row.reference.(claimedAt := Some(now)), Some(NoteAction(InFlight, false, now)))
    else row
  }

  /** `completeNoteAction` and the success transaction: guarded by nothing but the action's id. */
  function CompleteRow(row: Row, state: ActionState): Row {
    match row.action
    case None => row
    case Some(action) => Row(row.reference.(body := None), Some(action.(state := state, resultStored := true)))
  }

  predicate Overdue(row: Row, now: int) {
    && row.action.Some? && !row.action.value.resultStored && row.action.value.state.InFlight?
    && now - row.action.value.startedAt >= IN_FLIGHT_AMBIGUITY_MS
  }

  function ClearExpiredRow(row: Row, now: int): Row {
    if row.reference.purpose.NoteConfirm? && row.reference.claimedAt.None? && row.reference.expiresAt <= now then
      row.(reference := row.reference.(body := None))
    else row
  }

  function EraseRow(row: Row, now: int): Row {
    Row(row.reference.(expiresAt := now, body := None, fingerprint := None),
        if row.action.None? then None else Some(row.action.value.(resultStored := false)))
  }

  // All calls on one reference

  datatype Worker =
    | Idle
    | LostPrepare(note: Text)
    | ReadNote(note: Text)
    | Claimed(note: Text)
    | Calling
    | Answered(confirmed: bool)
    | MarkingAmbiguous

  /**
  `fixed` is the note of the first prepare that took effect, `accepted` the notes of all prepares answered OK,
  `sent` the notes `createOrderNote` was called with, and `cancelled` says whether a cancel was answered CANCELLED.
  */
  datatype World = World(
    row: Row,
    clock: int,
    workers: map<nat, Worker>,
    fixed: Option<Text>,
    accepted: seq<Text>,
    sent: seq<Text>,
    confirmed: bool,
    cancelled: bool
  )

  datatype Action =
    | Tick(clock: int)
    | Prepare(worker: nat, note: Text)
    | PrepareAgain(worker: nat)
    | Cancel
    | Confirm(worker: nat)
    | Claim(worker: nat)
    | Call(worker: nat)
    | Answer(worker: nat, confirmed: bool)
    | Complete(worker: nat, state: ActionState)
    | Replay(worker: nat)
    | MarkAmbiguous(worker: nat)
    | ClearExpired
    | Erase
    | Crash(worker: nat)

  function WorkerAt(w: World, k: nat): Worker {
    if k in w.workers then w.workers[k] else Idle
  }

  function SetWorker(w: World, k: nat, worker: Worker): World {
    w.(workers := w.workers[k := worker])
  }

  function Initial(expiresAt: int, clock: int): World {
    World(Row(Reference(NoteInput, None, None, None, expiresAt), None), clock, map[], None, [], [], false, false)
  }

  /** Past the claim. */
  predicate Owns(worker: Worker) {
    worker.Claimed? || worker.Calling? || worker.Answered?
  }

  /** SUCCEEDED is written after a confirmed answer only; the others also when an error comes before the call. */
  predicate MayComplete(worker: Worker, state: ActionState) {
    match state
    case InFlight => false
    case Succeeded => worker == Answered(true)
    case _ => Owns(worker)
  }

  function Step(w: World, a: Action): World {
    match a
    case Tick(clock) => if clock > w.clock then w.(clock := clock) else w
    case Prepare(k, note) =>
      if !WorkerAt(w, k).Idle? then w
      else if Preparable(w.row, w.clock) then
        w.(row := PrepareRow(w.row, note, w.clock),
           fixed := if w.fixed.None? then Some(note) else w.fixed,
           accepted := w.accepted + [note])
      else SetWorker(w, k, LostPrepare(note))
    case PrepareAgain(k) =>
      var worker := WorkerAt(w, k);
      if !worker.LostPrepare? then w
      else if PreparedSame(w.row, worker.note) then SetWorker(w.(accepted := w.accepted + [worker.note]), k, Idle)
      else SetWorker(w, k, Idle)
    case Cancel =>
      if Cancellable(w.row, w.clock) then w.(row := CancelRow(w.row, w.clock), cancelled := true) else w
    case Confirm(k) =>
      if WorkerAt(w, k).Idle? && Confirmable(w.row, w.clock) then
        SetWorker(w, k, ReadNote(w.row.reference.body.value))
      else w
    case Claim(k) =>
      var worker := WorkerAt(w, k);
      if !worker.ReadNote? then w
      else if NoteClaimable(w.row, w.clock) then SetWorker(w.(row := ClaimRow(w.row, w.clock)), k, Claimed(worker.note))
      else SetWorker(w, k, Idle)
    case Call(k) =>
      var worker := WorkerAt(w, k);
      if !worker.Claimed? then w else SetWorker(w.(sent := w.sent + [worker.note]), k, Calling)
    case Answer(k, confirmed) =>
      if !WorkerAt(w, k).Calling? then w else SetWorker(w.(confirmed := confirmed), k, Answered(confirmed))
    case Complete(k, state) =>
      if !MayComplete(WorkerAt(w, k), state) then w else SetWorker(w.(row := CompleteRow(w.row, state)), k, Idle)
    case Replay(k) =>
      if WorkerAt(w, k).Idle? && Overdue(w.row, w.clock) then SetWorker(w, k, MarkingAmbiguous) else w
    case MarkAmbiguous(k) =>
      if !WorkerAt(w, k).MarkingAmbiguous? then w else SetWorker(w.(row := CompleteRow(w.row, Ambiguous)), k, Idle)
    case ClearExpired => w.(row := ClearExpiredRow(w.row, w.clock))
    case Erase => w.(row := EraseRow(w.row, w.clock))
    case Crash(k) => SetWorker(w, k, Idle)
  }

  predicate ValidWorker(w: World, worker: Worker) {
    match worker
    case ReadNote(note) => w.fixed == Some(note)
    case Claimed(note) => w.fixed == Some(note) && w.row.reference.claimedAt.Some? && w.sent == []
    case Calling => |w.sent| == 1 && !w.confirmed
    case Answered(confirmed) => |w.sent| == 1 && w.confirmed == confirmed
    case _ => true
  }

  ghost predicate InvWorkers(w: World) {
    && (forall j, k | j in w.workers && k in w.workers && Owns(w.workers[j]) && Owns(w.workers[k]) :: j == k)
    && (forall k | k in w.workers :: ValidWorker(w, w.workers[k]))
    && (w.row.reference.claimedAt.None? ==> forall k | k in w.workers :: !Owns(w.workers[k]))
  }

  /** The row and the logs agree. */
  predicate InvRow(w: World) {
    && w.clock > 0
    && (w.row.reference.claimedAt.None? ==> w.row.action.None? && w.sent == [] && !w.confirmed)
    && (w.row.reference.purpose.NoteConfirm? <==> w.fixed.Some?)
    && (w.row.reference.body.Some? ==> w.row.reference.body == w.fixed)
    && (w.row.reference.fingerprint.Some? ==>
          w.fixed.Some? && w.row.reference.fingerprint == Some(Common.Hash(w.fixed.value)))
    && (forall i | 0 <= i < |w.accepted| :: Some(w.accepted[i]) == w.fixed)
    && |w.sent| <= 1 && (|w.sent| == 1 ==> Some(w.sent[0]) == w.fixed)
    && (w.confirmed ==> |w.sent| == 1)
    && (w.cancelled ==> w.row.reference.claimedAt.None? && w.row.reference.expiresAt <= w.clock)
    && (w.row.action.Some? && w.row.action.value.state.Succeeded? ==> w.confirmed)
  }

  ghost predicate Inv(w: World) {
    InvRow(w) && InvWorkers(w)
  }

  /** Steps on the reference before it is claimed. */
  lemma PrepareKeepsRow(w: World, a: Action)
    requires Inv(w) && (a.Prepare? || a.PrepareAgain? || a.Cancel? || a.Confirm? || a.ClearExpired?)
    ensures InvRow(Step(w, a))
  {
  }

  lemma ClaimKeepsRow(w: World, k: nat)
    requires Inv(w)
    ensures InvRow(Step(w, Claim(k)))
  {
    assert ValidWorker(w, WorkerAt(w, k));
  }

  /** Steps of the worker that has claimed it. */
  lemma CallKeepsRow(w: World, a: Action)
    requires Inv(w) && (a.Call? || a.Answer? || a.Complete?)
    ensures InvRow(Step(w, a))
  {
    assert ValidWorker(w, WorkerAt(w, a.worker));
  }

  lemma RowStep(w: World, a: Action)
    requires Inv(w)
    ensures InvRow(Step(w, a))
  {
    if a.Prepare? || a.PrepareAgain? || a.Cancel? || a.Confirm? || a.ClearExpired? {
      PrepareKeepsRow(w, a);
    } else if a.Claim? {
      ClaimKeepsRow(w, a.worker);
    } else if a.Call? || a.Answer? || a.Complete? {
      CallKeepsRow(w, a);
    }
  }

  lemma WorkerStep(w: World, a: Action, k: nat)
    requires Inv(w)
    ensures ValidWorker(Step(w, a), WorkerAt(Step(w, a), k))
  {
    assert ValidWorker(w, WorkerAt(w, k));
  }

  lemma OwnerStep(w: World, a: Action, k: nat)
    requires Inv(w) && Owns(WorkerAt(Step(w, a), k))
    ensures Step(w, a).row.reference.claimedAt.Some?
    ensures Owns(WorkerAt(w, k)) || (a == Claim(k) && w.row.reference.claimedAt.None?)
  {
  }

  lemma WorkersStep(w: World, a: Action)
    requires Inv(w)
    ensures InvWorkers(Step(w, a))
  {
    var after := Step(w, a);
    forall k | k in after.workers
      ensures ValidWorker(after, after.workers[k])
      ensures Owns(after.workers[k]) ==> after.row.reference.claimedAt.Some?
    {
      WorkerStep(w, a, k);
      if Owns(after.workers[k]) {
        OwnerStep(w, a, k);
      }
    }
    forall j, k | j in after.workers && k in after.workers && Owns(after.workers[j]) && Owns(after.workers[k])
      ensures j == k
    {
      OwnerStep(w, a, j);
      OwnerStep(w, a, k);
    }
  }

  lemma StepKeepsInv(w: World, a: Action)
    requires Inv(w)
    ensures Inv(Step(w, a))
  {
    RowStep(w, a);
    WorkersStep(w, a);
  }

  function Run(w: World, actions: seq<Action>): World
    decreases |actions|
  {
    if actions == [] then w else Run(Step(w, actions[0]), actions[1..])
  }

  lemma {:induction false} RunKeepsInv(w: World, actions: seq<Action>)
    requires Inv(w)
    ensures Inv(Run(w, actions))
    decreases |actions|
  {
    if actions != [] {
      StepKeepsInv(w, actions[0]);
      RunKeepsInv(Step(w, actions[0]), actions[1..]);
    }
  }

  /** The note is created at most once, with the text of the first prepare, which is the text of every accepted one. */
  lemma CalledAtMostOnce(expiresAt: int, clock: int, actions: seq<Action>)
    requires clock > 0
    ensures var w := Run(Initial(expiresAt, clock), actions);
            && |w.sent| <= 1
            && (forall note | note in w.sent :: Some(note) == w.fixed)
            && (forall note | note in w.accepted :: Some(note) == w.fixed)
  {
    RunKeepsInv(Initial(expiresAt, clock), actions);
  }

  lemma FixedStep(w: World, a: Action)
    requires Inv(w)
    ensures w.fixed.Some? ==> Step(w, a).fixed == w.fixed
    ensures w.cancelled ==> Step(w, a).cancelled
  {
  }

  /** Once a cancel was answered CANCELLED, no later step calls the store, and none had called it before. */
  lemma {:induction false} CancelledNeverCalled(w: World, actions: seq<Action>)
    requires Inv(w) && w.cancelled
    ensures Run(w, actions).sent == [] && Run(w, actions).row.action.None?
    decreases |actions|
  {
    if actions != [] {
      StepKeepsInv(w, actions[0]);
      FixedStep(w, actions[0]);
      CancelledNeverCalled(Step(w, actions[0]), actions[1..]);
    }
  }

  /** A recorded success means that the note was created and the answer confirmed. */
  lemma SucceededWasConfirmed(expiresAt: int, clock: int, actions: seq<Action>)
    requires clock > 0
    ensures var w := Run(Initial(expiresAt, clock), actions);
            w.row.action.Some? && w.row.action.value.state.Succeeded? ==> w.confirmed && |w.sent| == 1
  {
    RunKeepsInv(Initial(expiresAt, clock), actions);
  }

  // What the record does not tell

  /**
  The record of a confirmed note depends on who writes last: a replay that has read the action as overdue overwrites
  a success with AMBIGUOUS, and a success overwrites that AMBIGUOUS.
  */
  lemma LastWriterDecides(w: World, j: nat, k: nat)
    requires j != k && w.row.action.Some?
    requires WorkerAt(w, j) == Answered(true) && WorkerAt(w, k) == MarkingAmbiguous
    ensures var replayLast := Step(Step(w, Complete(j, Succeeded)), MarkAmbiguous(k));
            var successLast := Step(Step(w, MarkAmbiguous(k)), Complete(j, Succeeded));
            && replayLast.row.action.Some? && replayLast.row.action.value.state.Ambiguous?
            && successLast.row.action.Some? && successLast.row.action.value.state.Succeeded?
            && replayLast.sent == successLast.sent == w.sent
  {
    assert WorkerAt(Step(w, Complete(j, Succeeded)), k) == MarkingAmbiguous;
    assert WorkerAt(Step(w, MarkAmbiguous(k)), j) == Answered(true);
  }

  /** Such a state is reached whenever the answer takes a minute and someone asks meanwhile. */
  lemma SlowAnswerRaces(w: World, j: nat, k: nat)
    requires Inv(w) && j != k && WorkerAt(w, k).Idle? && WorkerAt(w, j).Calling?
    requires w.row.action.Some? && w.row.action.value.state.InFlight? && !w.row.action.value.resultStored
    ensures var late := Step(w, Tick(w.row.action.value.startedAt + IN_FLIGHT_AMBIGUITY_MS));
            var raced := Step(Step(late, Replay(k)), Answer(j, true));
            raced.row.action.Some? && WorkerAt(raced, j) == Answered(true) && WorkerAt(raced, k) == MarkingAmbiguous
  {
    var late := Step(w, Tick(w.row.action.value.startedAt + IN_FLIGHT_AMBIGUITY_MS));
    assert Overdue(late.row, late.clock) && WorkerAt(Step(late, Replay(k)), j).Calling?;
  }

  // When the record is final

  /** Some worker may still write the action: it is past the claim, or it has found the action overdue. */
  predicate MayStillWrite(w: World, k: nat) {
    || Owns(WorkerAt(w, k))
    || (WorkerAt(w, k).MarkingAmbiguous? && w.row.action.Some? && !w.row.action.value.state.Ambiguous?)
  }

  predicate NoErasure(actions: seq<Action>) {
    forall a | a in actions :: !a.Erase?
  }

  predicate Recorded(w: World) {
    w.row.action.Some? && w.row.action.value.resultStored
  }

  lemma SettledStep(w: World, a: Action)
    requires Inv(w) && Recorded(w) && !a.Erase? && forall k | k in w.workers :: !MayStillWrite(w, k)
    ensures var after := Step(w, a);
            after.row.action == w.row.action && forall k | k in after.workers :: !MayStillWrite(after, k)
  {
    assert w.row.reference.claimedAt.Some?;
  }

  lemma {:induction false} SettledRun(w: World, actions: seq<Action>)
    requires Inv(w) && Recorded(w) && forall k | k in w.workers :: !MayStillWrite(w, k)
    requires NoErasure(actions)
    ensures Run(w, actions).row.action == w.row.action
    decreases |actions|
  {
    if actions != [] {
      StepKeepsInv(w, actions[0]);
      SettledStep(w, actions[0]);
      SettledRun(Step(w, actions[0]), actions[1..]);
    }
  }

  lemma RunOne(w: World, a: Action)
    ensures Run(w, [a]) == Step(w, a)
  {
  }

  /** What a worker that may still write can do to change the record. */
  lemma Rewrites(w: World, k: nat) returns (actions: seq<Action>)
    requires Recorded(w) && MayStillWrite(w, k)
    ensures NoErasure(actions)
    ensures Run(w, actions).row.action != w.row.action
  {
    var failed := w.row.action.value.state.Failed?;
    if WorkerAt(w, k).MarkingAmbiguous? {
      actions := [MarkAmbiguous(k)];
      RunOne(w, MarkAmbiguous(k));
    } else if !failed {
      actions := [Complete(k, Failed)];
      RunOne(w, Complete(k, Failed));
    } else {
      actions := [Complete(k, Ambiguous)];
      RunOne(w, Complete(k, Ambiguous));
    }
  }

  /**
  A recorded outcome is final, short of an erasure, exactly when no worker is past the claim and none is about to mark
  an action that is not already ambiguous.
  */
  lemma RecordFinalIff(w: World)
    requires Inv(w) && Recorded(w)
    ensures (forall actions | NoErasure(actions) :: Run(w, actions).row.action == w.row.action)
            <==> forall k | k in w.workers :: !MayStillWrite(w, k)
  {
    if forall k | k in w.workers :: !MayStillWrite(w, k) {
      forall actions | NoErasure(actions)
        ensures Run(w, actions).row.action == w.row.action
      {
        SettledRun(w, actions);
      }
    } else {
      var k :| k in w.workers && MayStillWrite(w, k);
      var actions := Rewrites(w, k);
    }
  }

  // What takes effect

  /** A fresh reference takes any note; once it has one, only the same again is accepted. */
  lemma PrepareTakes(w: World, k: nat, note: Text)
    requires Inv(w) && WorkerAt(w, k).Idle? && w.row.reference.expiresAt > w.clock
    ensures var after := Step(Step(w, Prepare(k, note)), PrepareAgain(k));
            && (w.row.reference.purpose == NoteInput ==>
                  && after.accepted == w.accepted + [note] && after.fixed == Some(note)
                  && after.row.reference.purpose == NoteConfirm && after.row.reference.body == Some(note)
                  && after.row.reference.fingerprint == Some(Common.Hash(note)))
            && (w.row.reference.purpose == NoteConfirm ==>
                  && after.row == w.row
                  && after.accepted ==
                       if w.row.reference.fingerprint == Some(Common.Hash(note)) then w.accepted + [note]
                       else w.accepted)
  {
  }

  /** A cancel is answered CANCELLED exactly when nobody has claimed the reference and it has not expired. */
  lemma CancelTakesIff(w: World)
    ensures var after := Step(w, Cancel);
            && (after.cancelled <==>
                  w.cancelled || (w.row.reference.claimedAt == None && w.row.reference.expiresAt > w.clock))
            && (w.row.reference.claimedAt != None ==> after == w)
            && (after != w ==> after.row.reference.expiresAt <= 0 && after.row.reference.body == None)
  {
  }

  /** Confirmed by one undisturbed worker, a prepared note is created, and what the answer says is recorded. */
  lemma ConfirmCreates(w: World, k: nat, confirmed: bool)
    requires Inv(w) && WorkerAt(w, k).Idle? && w.row.reference.expiresAt > w.clock
    requires w.row.reference.purpose == NoteConfirm && w.row.reference.claimedAt == None
    requires w.row.reference.body != None && w.row.reference.fingerprint != None
    ensures var claimed := Step(Step(w, Confirm(k)), Claim(k));
            var answered := Step(Step(claimed, Call(k)), Answer(k, confirmed));
            var after := Step(answered, Complete(k, if confirmed then Succeeded else Ambiguous));
            && claimed.row.reference.claimedAt == Some(w.clock)
            && claimed.row.action == Some(NoteAction(InFlight, false, w.clock))
            && after.sent == [w.row.reference.body.value] && after.confirmed == confirmed
            && after.row.action == Some(NoteAction(if confirmed then Succeeded else Ambiguous, true, w.clock))
            && after.row.reference.body == None
  {
    var read := Step(w, Confirm(k));
    assert Common.Hash(w.row.reference.body.value) == w.row.reference.fingerprint.value;
    assert WorkerAt(read, k) == ReadNote(w.row.reference.body.value);
    var claimed := Step(read, Claim(k));
    assert WorkerAt(claimed, k) == Claimed(w.row.reference.body.value);
    var called := Step(claimed, Call(k));
    assert WorkerAt(called, k) == Calling && WorkerAt(Step(called, Answer(k, confirmed)), k) == Answered(confirmed);
  }

  /** What confirming requires of the reference. */
  lemma ConfirmReadsIff(w: World, k: nat)
    requires WorkerAt(w, k) == Idle
    ensures var r, after := w.row.reference, Step(w, Confirm(k));
            && after == w.(workers := after.workers)
            && (WorkerAt(after, k) != Idle <==>
                  && r.purpose == NoteConfirm && r.expiresAt > w.clock && w.row.action == None
                  && r.body != None && r.fingerprint == Some(Common.Hash(r.body.value)))
            && (WorkerAt(after, k) != Idle ==> r.body != None && WorkerAt(after, k) == ReadNote(r.body.value))
  {
  }

  /** A replay gives up an action that has been in flight without an answer for a minute, and no other. */
  lemma ReplayGivesUpIff(w: World, k: nat)
    requires WorkerAt(w, k) == Idle
    ensures var action, after := w.row.action, Step(Step(w, Replay(k)), MarkAmbiguous(k));
            after.row == if action != None && action.value.state == InFlight && !action.value.resultStored
                            && action.value.startedAt + 60_000 <= w.clock
                         then Row(w.row.reference.(body := None),
                                  Some(NoteAction(Ambiguous, true, action.value.startedAt)))
                         else w.row
  {
  }

  /** Out of its turn a worker does nothing, and the clock does not go back. */
  lemma OutOfTurn(w: World, k: nat, note: Text, clock: int, confirmed: bool, state: ActionState)
    ensures WorkerAt(w, k) != Idle ==>
              Step(w, Prepare(k, note)) == w && Step(w, Confirm(k)) == w && Step(w, Replay(k)) == w
    ensures !WorkerAt(w, k).LostPrepare? ==> Step(w, PrepareAgain(k)) == w
    ensures !WorkerAt(w, k).ReadNote? ==> Step(w, Claim(k)) == w
    ensures !WorkerAt(w, k).Claimed? ==> Step(w, Call(k)) == w
    ensures WorkerAt(w, k) != Calling ==> Step(w, Answer(k, confirmed)) == w
    ensures !(WorkerAt(w, k).Claimed? || WorkerAt(w, k).Calling? || WorkerAt(w, k).Answered?) ==>
              Step(w, Complete(k, state)) == w
    ensures state == InFlight || (state == Succeeded && WorkerAt(w, k) != Answered(true)) ==>
              Step(w, Complete(k, state)) == w
    ensures WorkerAt(w, k) != MarkingAmbiguous ==> Step(w, MarkAmbiguous(k)) == w
    ensures Step(w, Tick(clock)).clock == if clock > w.clock then clock else w.clock
  {
  }

  /** A text that was never confirmed is dropped once its reference has expired. */
  lemma ExpiryClears(w: World)
    ensures var r, after := w.row.reference, Step(w, ClearExpired);
            && after == w.(row := w.row.(reference := after.row.reference))
            && after.row.reference ==
                 if r.purpose == NoteConfirm && r.claimedAt == None && r.expiresAt <= w.clock then r.(body := None)
                 else r
  {
  }

  /** An erasure leaves no text, no fingerprint and no stored answer, and closes the reference. */
  lemma ErasureClears(w: World)
    ensures var after := Step(w, Erase);
            && after.row.reference.body == None && after.row.reference.fingerprint == None
            && after.row.reference.expiresAt == w.clock && after.row.reference.claimedAt == w.row.reference.claimedAt
            && after.row.reference.purpose == w.row.reference.purpose
            && after.row.action ==
                 (if w.row.action == None then None else Some(w.row.action.value.(resultStored := false)))
            && after.sent == w.sent && after.workers == w.workers
  {
  }

  /** The service's statements on one reference and its action row. */
  class NoteReference {
    var row: Row

    constructor (expiresAt: int)
      ensures row == Initial(expiresAt, 1).row
    {
      row := Row(Reference(NoteInput, None, None, None, expiresAt), None);
    }

    /** `prepareNote` after its checks: a second prepare is accepted only with the same text. */
    method Prepare(note: Text, now: int) returns (accepted: bool)
      modifies this
      ensures row == PrepareRow(old(row), note, now)
      ensures accepted == (Preparable(old(row), now) || PreparedSame(old(row), note))
      ensures var r := old(row).reference;
              if r.purpose == NoteInput && r.expiresAt > now then
                && accepted
                && row == Row(Reference(NoteConfirm, Some(note), Some(Common.Hash(note)), r.claimedAt, r.expiresAt),
                              old(row).action)
              else
                row == old(row) && (accepted <==> r.purpose == NoteConfirm && r.fingerprint == Some(Common.Hash(note)))
    {
      var r := row.reference;
      if r.purpose == NoteInput && r.expiresAt > now {
        row := row.(reference := Reference(NoteConfirm, Some(note), Some(Common.Hash(note)), r.claimedAt, r.expiresAt));
        accepted := true;
      } else {
        accepted := r.purpose == NoteConfirm && r.fingerprint == Some(Common.Hash(note));
      }
    }

    method Cancel(now: int) returns (cancelled: bool)
      modifies this
      ensures cancelled == Cancellable(old(row), now) && row == CancelRow(old(row), now)
      ensures cancelled <==> old(row).reference.claimedAt == None && old(row).reference.expiresAt > now
      ensures row == if !cancelled then old(row)
                     else old(row).(reference := old(row).reference.(expiresAt := 0, body := None))
    {
      var r := row.reference;
      cancelled := r.claimedAt == None && r.expiresAt > now;
      if cancelled {
        row := row.(reference := Reference(r.purpose, None, r.fingerprint, r.claimedAt, 0));
      }
    }

    /** The claiming transaction of `confirmNote`: the reference and the unique action together. */
    method Claim(now: int) returns (claimed: bool)
      modifies this
      ensures claimed == NoteClaimable(old(row), now) && row == ClaimRow(old(row), now)
      ensures claimed <==>
                && old(row).reference.purpose == NoteConfirm && old(row).reference.claimedAt == None
                && old(row).reference.expiresAt > now && old(row).action == None
      ensures row == if !claimed then old(row)
                     else Row(old(row).reference.(claimedAt := Some(now)), Some(NoteAction(InFlight, false, now)))
    {
      var r := row.reference;
      claimed := r.purpose == NoteConfirm && r.claimedAt == None && r.expiresAt > now && row.action == None;
      if claimed {
        row := Row(Reference(r.purpose, r.body, r.fingerprint, Some(now), r.expiresAt),
                   Some(NoteAction(InFlight, false, now)));
      }
    }

    method Complete(state: ActionState)
      requires row.action.Some?
      modifies this
      ensures row == CompleteRow(old(row), state)
      ensures row == Row(old(row).reference.(body := None),
                         Some(NoteAction(state, true, old(row).action.value.startedAt)))
    {
      var action := row.action.value;
      row := Row(row.reference.(body := None), Some(NoteAction(state, true, action.startedAt)));
    }

    /** `noteActionReplay` when nothing else runs: an action without an answer for a minute is given up. */
    method Replay(now: int) returns (known: Option<ActionState>)
      modifies this
      ensures row == if Overdue(old(row), now) then CompleteRow(old(row), Ambiguous) else old(row)
      ensures known == if row.action.None? then None else Some(row.action.value.state)
      ensures old(row).action == None ==> row == old(row)
      ensures var action := old(row).action;
              action != None ==>
                if action.value.state == InFlight && !action.value.resultStored
                   && action.value.startedAt + 60_000 <= now then
                  row == Row(old(row).reference.(body := None),
                             Some(NoteAction(Ambiguous, true, action.value.startedAt)))
                else row == old(row)
    {
      if row.action == None {
        return None;
      }
      var action := row.action.value;
      if !action.resultStored && action.state == InFlight && now - action.startedAt >= IN_FLIGHT_AMBIGUITY_MS {
        Complete(Ambiguous);
      }
      known := Some(row.action.value.state);
    }

    method ClearExpired(now: int)
      modifies this
      ensures row == ClearExpiredRow(old(row), now)
      ensures var r := old(row).reference;
              row == if r.purpose == NoteConfirm && r.claimedAt == None && r.expiresAt <= now
                     then old(row).(reference := r.(body := None))
                     else old(row)
    {
      var r := row.reference;
      if r.purpose == NoteConfirm && r.claimedAt == None && r.body != None && r.expiresAt <= now {
        row := row.(reference := r.(body := None));
      }
    }
  }
}
