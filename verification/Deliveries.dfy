/**
 One notification delivery and the workers that may process it. Order and stock notifications run the same machine.
 Each database statement and each message to Telegram is one step; a worker may stop for good between any two.
*/
module Deliveries {
  import opened Common
  import opened Wrappers

  datatype SendOutcome = SendDelivered | SendRetryable | SendTerminal | SendAmbiguous

  datatype Row = Row(state: DeliveryState, attempts: nat, lastAttemptAt: Option<int>, failureCode: Option<string>)

  predicate Claimable(row: Row) {
    row.state.Pending? || row.state.RetryableFailure?
  }

  function ClaimRow(row: Row, now: int): Row {
    if Claimable(row) then Row(InFlight, row.attempts + 1, Some(now), None) else row
  }

  /** `persistState`: guarded by the state only. */
  function PersistRow(row: Row, state: DeliveryState, code: string): Row {
    if row.state.InFlight? then row.(state := state, failureCode := Some(code)) else row
  }

  /** A delivered message is recorded only for the claim that sent it. */
  function PersistDeliveredRow(row: Row, claimedAt: int): Row {
    if row.state.InFlight? && row.lastAttemptAt == Some(claimedAt) then row.(state := Delivered) else row
  }

  function ExhaustedRow(row: Row): Row {
    if row.state.RetryableFailure? then row.(state := TerminalFailure, failureCode := Some("telegram-retry-exhausted"))
    else row
  }

  function ErasedRow(row: Row): Row {
    if Final(row.state) then row else row.(state := TerminalFailure, failureCode := Some("identity-erased"))
  }

  function OutcomeRow(row: Row, claimedAt: int, outcome: SendOutcome, code: string): Row {
    match outcome
    case SendDelivered => PersistDeliveredRow(row, claimedAt)
    case SendRetryable => PersistRow(row, RetryableFailure, code)
    case SendTerminal => PersistRow(row, TerminalFailure, code)
    case SendAmbiguous => PersistRow(row, Ambiguous, code)
  }

  datatype Worker =
    | Idle
    | Refused
    | SawInFlight
    | Claimed(claimedAt: int)
    | Sending(claimedAt: int)
    | Sent(claimedAt: int, outcome: SendOutcome)

  /** `sends` lists the messages handed to Telegram, with the outcome where a worker learnt it. */
  datatype World = World(row: Row, workers: map<nat, Worker>, sends: seq<Option<SendOutcome>>)

  datatype Action =
    | Claim(worker: nat, now: int)
    | ReadState(worker: nat)
    | MarkAmbiguous(worker: nat)
    | Refuse(worker: nat, code: string)
    | Send(worker: nat)
    | Reply(worker: nat, outcome: SendOutcome)
    | Persist(worker: nat, code: string)
    | MarkFailed
    | Erase
    | Crash(worker: nat)

  function WorkerAt(w: World, k: nat): Worker {
    if k in w.workers then w.workers[k] else Idle
  }

  function SetWorker(w: World, k: nat, worker: Worker): World {
    w.(workers := w.workers[k := worker])
  }

  const INITIAL := World(Row(Pending, 0, None, None), map[], [])

  function Step(w: World, a: Action): World {
    match a
    case Claim(k, now) =>
      if !WorkerAt(w, k).Idle? then w
      else if Claimable(w.row) then SetWorker(w.(row := ClaimRow(w.row, now)), k, Claimed(now))
      else SetWorker(w, k, Refused)
    case ReadState(k) =>
      if !WorkerAt(w, k).Refused? then w
      else SetWorker(w, k, if w.row.state.InFlight? then SawInFlight else Idle)
    case MarkAmbiguous(k) =>
      if !WorkerAt(w, k).SawInFlight? then w
      else SetWorker(w.(row := PersistRow(w.row, Ambiguous, "in-flight-outcome-unknown")), k, Idle)
    case Refuse(k, code) =>
      if !WorkerAt(w, k).Claimed? then w else SetWorker(w.(row := PersistRow(w.row, TerminalFailure, code)), k, Idle)
    case Send(k) =>
      var worker := WorkerAt(w, k);
      if !worker.Claimed? then w else SetWorker(w.(sends := w.sends + [None]), k, Sending(worker.claimedAt))
    case Reply(k, outcome) =>
      var worker := WorkerAt(w, k);
      if !worker.Sending? || w.sends == [] then w
      else SetWorker(w.(sends := w.sends[|w.sends| - 1 := Some(outcome)]), k, Sent(worker.claimedAt, outcome))
    case Persist(k, code) =>
      var worker := WorkerAt(w, k);
      if !worker.Sent? then w
      else SetWorker(w.(row := OutcomeRow(w.row, worker.claimedAt, worker.outcome, code)), k, Idle)
    case MarkFailed => w.(row := ExhaustedRow(w.row))
    case Erase => w.(row := ErasedRow(w.row))
    case Crash(k) => SetWorker(w, k, Idle)
  }

  /** Between a claim and its outcome. */
  predicate Holding(worker: Worker) {
    worker.Claimed? || worker.Sending? || worker.Sent?
  }

  predicate Retried(w: World, n: nat)
    requires n <= |w.sends|
  {
    forall i | 0 <= i < n :: w.sends[i] == Some(SendRetryable)
  }

  /** The row and the message log agree with what a holding worker still has to do. */
  predicate ValidHolder(w: World, worker: Worker)
    requires Holding(worker)
  {
    && !Claimable(w.row)
    && (w.row.state.InFlight? ==> w.row.lastAttemptAt == Some(worker.claimedAt))
    && (if worker.Claimed? then Retried(w, |w.sends|) && |w.sends| < w.row.attempts
        else |w.sends| > 0 && w.sends[|w.sends| - 1] == if worker.Sent? then Some(worker.outcome) else None)
  }

  ghost predicate Inv(w: World) {
    && (forall j, k | j in w.workers && k in w.workers && Holding(w.workers[j]) && Holding(w.workers[k]) :: j == k)
    && (forall k | k in w.workers && Holding(w.workers[k]) :: ValidHolder(w, w.workers[k]))
    && (Claimable(w.row) ==> Retried(w, |w.sends|))
    && (|w.sends| > 0 ==> Retried(w, |w.sends| - 1))
    && |w.sends| <= w.row.attempts
    && (w.row.state.Delivered? ==> |w.sends| > 0 && w.sends[|w.sends| - 1] == Some(SendDelivered))
  }

  lemma HolderIsValid(w: World, k: nat)
    requires Inv(w) && Holding(WorkerAt(w, k))
    ensures ValidHolder(w, WorkerAt(w, k))
  {
  }

  /** Steps of a worker that does not hold the delivery, before or after. */
  lemma OtherKeepsInv(w: World, a: Action)
    requires Inv(w) && !a.Claim? && !a.Send? && !a.Reply?
    ensures Inv(Step(w, a))
  {
    if a.Persist? && WorkerAt(w, a.worker).Sent? {
      HolderIsValid(w, a.worker);
    }
  }

  lemma StepKeepsInv(w: World, a: Action)
    requires Inv(w)
    ensures Inv(Step(w, a))
  {
    match a
    case Claim(k, now) =>
    case Send(k) =>
      if WorkerAt(w, k).Claimed? {
        HolderIsValid(w, k);
      }
    case Reply(k, outcome) =>
      if WorkerAt(w, k).Sending? {
        HolderIsValid(w, k);
      }
    case _ => OtherKeepsInv(w, a);
  }

  function Run(w: World, actions: seq<Action>): World
    decreases |actions|
  {
    if actions == [] then w else Run(Step(w, actions[0]), actions[1..])
  }

  lemma {:induction false} RunKeepsInv(w: World, actions: seq<Action>)
    requires Inv(w)
    ensures Inv(Run(w, actions))
    decreases |actions|
  {
    if actions != [] {
      StepKeepsInv(w, actions[0]);
      RunKeepsInv(Step(w, actions[0]), actions[1..]);
    }
  }

  /** At most one worker is between its claim and its outcome. */
  lemma OneHolder(actions: seq<Action>, j: nat, k: nat)
    requires Holding(WorkerAt(Run(INITIAL, actions), j)) && Holding(WorkerAt(Run(INITIAL, actions), k))
    ensures j == k
  {
    RunKeepsInv(INITIAL, actions);
  }

  /** A final state is never left, by any worker or erasure. */
  lemma {:induction false} FinalIsFinal(w: World, actions: seq<Action>)
    requires Inv(w) && Final(w.row.state)
    ensures Run(w, actions).row == w.row
    decreases |actions|
  {
    if actions != [] {
      StepKeepsInv(w, actions[0]);
      FinalIsFinal(Step(w, actions[0]), actions[1..]);
    }
  }

  /** Every message but the last had a retryable outcome, and there are no more messages than claims. */
  lemma SendsAreRetries(actions: seq<Action>)
    ensures var w := Run(INITIAL, actions);
            |w.sends| <= w.row.attempts && (|w.sends| > 0 ==> Retried(w, |w.sends| - 1))
  {
    RunKeepsInv(INITIAL, actions);
  }

  /** The last message has an outcome that is not retryable, or its sender is gone and nobody knows. */
  predicate LastSendSettled(w: World) {
    && |w.sends| > 0
    && w.sends[|w.sends| - 1] != Some(SendRetryable)
    && (w.sends[|w.sends| - 1].None? ==> forall k | k in w.workers :: !Holding(w.workers[k]))
  }

  lemma SettledStep(w: World, a: Action)
    requires Inv(w) && LastSendSettled(w)
    ensures Step(w, a).sends == w.sends && LastSendSettled(Step(w, a))
  {
    forall k | Holding(WorkerAt(w, k))
      ensures WorkerAt(w, k).Sent?
    {
      HolderIsValid(w, k);
    }
    assert !Claimable(w.row);
  }

  /** After such a message no other is ever sent. */
  lemma {:induction false} NoSendAfter(w: World, actions: seq<Action>)
    requires Inv(w) && LastSendSettled(w)
    ensures Run(w, actions).sends == w.sends
    decreases |actions|
  {
    if actions != [] {
      StepKeepsInv(w, actions[0]);
      SettledStep(w, actions[0]);
      NoSendAfter(Step(w, actions[0]), actions[1..]);
    }
  }

  /** DELIVERED means that the last message sent was delivered. */
  lemma DeliveredWasSent(actions: seq<Action>)
    requires Run(INITIAL, actions).row.state.Delivered?
    ensures var sends := Run(INITIAL, actions).sends; |sends| > 0 && sends[|sends| - 1] == Some(SendDelivered)
  {
    RunKeepsInv(INITIAL, actions);
  }

  /**
   In every run, what Telegram answered to the worker that sent the message is what is recorded, if the row is in
   flight.
  */
  lemma OutcomeIsRecorded(actions: seq<Action>, k: nat, code: string)
    requires WorkerAt(Run(INITIAL, actions), k).Sent? && Run(INITIAL, actions).row.state == InFlight
    ensures var w := Run(INITIAL, actions);
            var after := Step(w, Persist(k, code));
            && after.sends == w.sends
            && |w.sends| > 0 && w.sends[|w.sends| - 1] == Some(WorkerAt(w, k).outcome)
            && (WorkerAt(w, k).outcome == SendDelivered ==> after.row.state == Delivered)
            && (WorkerAt(w, k).outcome == SendRetryable ==> after.row.state == RetryableFailure)
            && (WorkerAt(w, k).outcome == SendTerminal ==> after.row.state == TerminalFailure)
            && (WorkerAt(w, k).outcome == SendAmbiguous ==> after.row.state == Ambiguous)
  {
    RunKeepsInv(INITIAL, actions);
    assert ValidHolder(Run(INITIAL, actions), WorkerAt(Run(INITIAL, actions), k));
  }

  /** One worker that is not disturbed. */
  function Attempt(k: nat, now: int, outcome: SendOutcome, code: string): seq<Action> {
    [Claim(k, now), Send(k), Reply(k, outcome), Persist(k, code)]
  }

  lemma RunFour(w: World, a: Action, b: Action, c: Action, d: Action)
    ensures Run(w, [a, b, c, d]) == Step(Step(Step(Step(w, a), b), c), d)
  {
    assert [a, b, c, d][1..] == [b, c, d] && [b, c, d][1..] == [c, d] && [c, d][1..] == [d] && [d][1..] == [];
    assert Run(w, [a, b, c, d]) == Run(Step(w, a), [b, c, d]);
    assert Run(Step(w, a), [b, c, d]) == Run(Step(Step(w, a), b), [c, d]);
    assert Run(Step(Step(w, a), b), [c, d]) == Run(Step(Step(Step(w, a), b), c), [d]);
  }

  /**
   Any delivery that is pending or to be retried is attempted by the next undisturbed worker, and ends as answered.
  */
  lemma AttemptEnds(w: World, k: nat, now: int, outcome: SendOutcome, code: string)
    requires WorkerAt(w, k).Idle? && (w.row.state == Pending || w.row.state == RetryableFailure)
    ensures var after := Run(w, Attempt(k, now, outcome, code));
            && after.sends == w.sends + [Some(outcome)] && after.row.attempts == w.row.attempts + 1
            && after.row.lastAttemptAt == Some(now) && WorkerAt(after, k).Idle?
            && after.row.state ==
                 match outcome
                 case SendDelivered => Delivered
                 case SendRetryable => RetryableFailure
                 case SendTerminal => TerminalFailure
                 case SendAmbiguous => Ambiguous
  {
    RunFour(w, Claim(k, now), Send(k), Reply(k, outcome), Persist(k, code));
  }

  /** An erased identity's unfinished deliveries end, whatever a worker is at. */
  lemma ErasureEnds(w: World)
    ensures var after := Step(w, Erase);
            && after == w.(row := after.row)
            && after.row == if w.row.state in {Delivered, TerminalFailure, Ambiguous} then w.row
                            else w.row.(state := TerminalFailure, failureCode := Some("identity-erased"))
  {
  }

  /** A worker that finds, after its claim, that nobody may be told any more ends the delivery without a message. */
  lemma RefusalEnds(w: World, k: nat, now: int, code: string)
    requires WorkerAt(w, k).Idle? && (w.row.state == Pending || w.row.state == RetryableFailure)
    ensures var after := Step(Step(w, Claim(k, now)), Refuse(k, code));
            after.row.state == TerminalFailure && after.row.failureCode == Some(code) && after.sends == w.sends
  {
  }

  /** Who finds a delivery taken gives it up, if it still is in flight when it comes to that. */
  lemma GivenUp(w: World, k: nat, now: int)
    requires WorkerAt(w, k).Idle? && w.row.state != Pending && w.row.state != RetryableFailure
    ensures var looked := Step(Step(w, Claim(k, now)), ReadState(k));
            && looked.row == w.row && (WorkerAt(looked, k) == Idle <==> w.row.state != InFlight)
            && Step(looked, MarkAmbiguous(k)).row ==
                 if w.row.state != InFlight then w.row
                 else w.row.(state := Ambiguous, failureCode := Some("in-flight-outcome-unknown"))
  {
  }

  /** Out of its turn a worker does nothing. */
  lemma OutOfTurn(w: World, k: nat, now: int, outcome: SendOutcome, code: string)
    ensures WorkerAt(w, k) != Idle ==> Step(w, Claim(k, now)) == w
    ensures WorkerAt(w, k) != Refused ==> Step(w, ReadState(k)) == w
    ensures WorkerAt(w, k) != SawInFlight ==> Step(w, MarkAmbiguous(k)) == w
    ensures !WorkerAt(w, k).Claimed? ==> Step(w, Refuse(k, code)) == w && Step(w, Send(k)) == w
    ensures !WorkerAt(w, k).Sending? ==> Step(w, Reply(k, outcome)) == w
    ensures !WorkerAt(w, k).Sent? ==> Step(w, Persist(k, code)) == w
  {
  }

  /** The check of the claim time never refuses an outcome that the state check lets through. */
  lemma ClaimTimeIsRedundant(actions: seq<Action>, k: nat)
    requires WorkerAt(Run(INITIAL, actions), k).Sent? && Run(INITIAL, actions).row.state.InFlight?
    ensures var w := Run(INITIAL, actions);
            PersistDeliveredRow(w.row, WorkerAt(w, k).claimedAt).state.Delivered?
  {
    RunKeepsInv(INITIAL, actions);
    assert ValidHolder(Run(INITIAL, actions), WorkerAt(Run(INITIAL, actions), k));
  }

  /** The processor's statements on one delivery row. */
  class Delivery {
    var row: Row

    constructor ()
      ensures row == INITIAL.row
    {
      row := Row(Pending, 0, None, None);
    }

    method Claim(now: int) returns (claimed: bool)
      modifies this
      ensures claimed == Claimable(old(row)) && row == ClaimRow(old(row), now)
      ensures claimed <==> old(row).state == Pending || old(row).state == RetryableFailure
      ensures row == if claimed then Row(InFlight, old(row).attempts + 1, Some(now), None) else old(row)
    {
      claimed := row.state == Pending || row.state == RetryableFailure;
      if claimed {
        row := row.(state := InFlight, attempts := row.attempts + 1, lastAttemptAt := Some(now), failureCode := None);
      }
    }

    method PersistState(state: DeliveryState, code: string) returns (persisted: bool)
      modifies this
      ensures persisted == old(row).state.InFlight? && row == PersistRow(old(row), state, code)
      ensures row == if old(row).state == InFlight then old(row).(state := state, failureCode := Some(code))
                     else old(row)
    {
      persisted := row.state == InFlight;
      if persisted {
        row := row.(state := state, failureCode := Some(code));
      }
    }

    /** What happens after the message client has answered. */
    method PersistOutcome(claimedAt: int, outcome: SendOutcome, code: string) returns (persisted: bool)
      modifies this
      ensures row == OutcomeRow(old(row), claimedAt, outcome, code)
      ensures persisted <==>
                old(row).state == InFlight && (outcome == SendDelivered ==> old(row).lastAttemptAt == Some(claimedAt))
      ensures !persisted ==> row == old(row)
      ensures persisted && outcome == SendDelivered ==> row == old(row).(state := Delivered)
      ensures persisted && outcome == SendRetryable ==>
                row == old(row).(state := RetryableFailure, failureCode := Some(code))
      ensures persisted && outcome == SendTerminal ==>
                row == old(row).(state := TerminalFailure, failureCode := Some(code))
      ensures persisted && outcome == SendAmbiguous ==>
                row == old(row).(state := Ambiguous, failureCode := Some(code))
    {
      if outcome == SendDelivered {
        persisted := row.state == InFlight && row.lastAttemptAt == Some(claimedAt);
        if persisted {
          row := row.(state := Delivered);
        }
      } else {
        persisted := PersistState(
          if outcome == SendRetryable then RetryableFailure
          else if outcome == SendTerminal then TerminalFailure
          else Ambiguous,
          code);
      }
    }

    /** `resolveUnclaimed` when nothing else runs: an in-flight delivery is given up as ambiguous. */
    method ResolveUnclaimed() returns (final: bool)
      modifies this
      ensures final == !Claimable(old(row)) && (final ==> Final(row.state))
      ensures row == if old(row).state.InFlight? then PersistRow(old(row), Ambiguous, "in-flight-outcome-unknown")
                else old(row)
      ensures row.state == if old(row).state == InFlight then Ambiguous else old(row).state
    {
      if row.state == InFlight {
        final := PersistState(Ambiguous, "in-flight-outcome-unknown");
      } else {
        final := row.state == Delivered || row.state == TerminalFailure || row.state == Ambiguous;
      }
    }

    method MarkFailed()
      modifies this
      ensures row == ExhaustedRow(old(row))
      ensures row == if old(row).state != RetryableFailure then old(row)
                     else old(row).(state := TerminalFailure, failureCode := Some("telegram-retry-exhausted"))
    {
      if row.state == RetryableFailure {
        row := row.(state := TerminalFailure, failureCode := Some("telegram-retry-exhausted"));
      }
    }
  }
}
