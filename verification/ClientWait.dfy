/** The client library's blocking transfer call: create the transfer, then poll until an answer settles it. */
module ClientWait {
  import opened Common
  import opened Transfers

  /** `scord::transfer_state::type`, in declaration order. */
  datatype TransferStatus = Queued | Running | Finished | Failed | Cancelled

  /** The answer of query_transfer as the client library sees it. */
  datatype Answer = Status(status: TransferStatus) | Error(ec: ErrorCode)

  /**
   The daemon casts Cargo's enumerator to its own without a table. Cargo's declaration is not part of this model;
   its order is assumed to be pending, running, completed, failed.
   */
  function FromCargo(state: CargoState): TransferStatus {
    match state
    case Pending => Queued
    case Running => TransferStatus.Running
    case Completed => Finished
    case Failed => TransferStatus.Failed
  }

  /** What an answer makes the poll loop return; None keeps it polling. A missing entity counts as success. */
  function Verdict(a: Answer): Option<ErrorCode> {
    match a
    case Status(status) => if status == TransferStatus.Running || status == Queued then None else Some(Success)
    case Error(ec) => if ec == NoSuchEntity then Some(Success) else Some(ec)
  }

  /** The numbers of the enumerators on either side of the daemon's cast. */
  function CargoNumber(state: CargoState): nat {
    match state case Pending => 0 case Running => 1 case Completed => 2 case Failed => 3
  }

  function StatusNumber(status: TransferStatus): nat {
    match status case Queued => 0 case Running => 1 case Finished => 2 case Failed => 3 case Cancelled => 4
  }

  lemma CastKeepsNumber(state: CargoState)
    ensures StatusNumber(FromCargo(state)) == CargoNumber(state)
  {
  }

  /** The wait ends on exactly the states that Cargo never leaves. */
  lemma WaitsExactlyWhileNotTerminal(state: CargoState)
    ensures Verdict(Status(FromCargo(state))) == (if state.Terminal() then Some(Success) else None)
  {
  }

  /** The answer says that the transfer is still on its way. */
  predicate OnItsWay(a: Answer) {
    a == Status(Queued) || a == Status(TransferStatus.Running)
  }

  /** The answer says that the transfer is over, or gone. */
  predicate OverOrGone(a: Answer) {
    a == Status(Finished) || a == Status(TransferStatus.Failed) || a == Status(Cancelled) || a == Error(NoSuchEntity)
  }

  /**
   ADM_transfer_datasets. `created` is the outcome of the creation RPC and `answers` the answers of the successive
   query RPCs, as many as the call is observed for; `rv` is None if it is still waiting after the last of them.
   */
  method TransferDatasets(created: Expected<TransferId>, wait: bool, answers: seq<Answer>)
    returns (rv: Option<ErrorCode>, transfer: Option<TransferId>, polls: nat)
    ensures created.Unexpected? ==> rv == Some(created.error) && transfer == None && polls == 0
    ensures created.Value? ==> transfer == Some(created.value)
    ensures created.Value? && !wait ==> rv == Some(Success) && polls == 0
    ensures created.Value? && wait ==>
              && polls <= |answers|
              && (rv.None? ==> polls == |answers| && forall i :: 0 <= i < polls ==> OnItsWay(answers[i]))
              && (rv.Some? ==> 0 < polls && !OnItsWay(answers[polls - 1]) && forall i :: 0 <= i < polls - 1 ==> OnItsWay(answers[i]))
              && (rv == Some(Success) ==> OverOrGone(answers[polls - 1]) || answers[polls - 1] == Error(Success))
              && (rv.Some? && OverOrGone(answers[polls - 1]) ==> rv == Some(Success))
              && (forall ec :: ec != Success ==> (rv == Some(ec) <==> rv.Some? && ec != NoSuchEntity && answers[polls - 1] == Error(ec)))
    ensures created.Value? && wait && rv.Some? ==> Verdict(answers[polls - 1]) == rv
  {
    transfer, polls := None, 0;
    if created.Unexpected? {
      return Some(created.error), None, 0;
    }
    transfer := Some(created.value);
    if wait {
      if |answers| == 0 {
        return None, transfer, 0;
      }
      var answer := answers[0];
      polls := 1;
      if answer.Error? {
        return Some(if answer.ec == NoSuchEntity then Success else answer.ec), transfer, polls;
      }
      var status := answer.status;
      while status == TransferStatus.Running || status == Queued
        invariant 0 < polls <= |answers| && answers[polls - 1] == Status(status)
        invariant forall i :: 0 <= i < polls - 1 ==> OnItsWay(answers[i])
        decreases |answers| - polls
      {
        if polls == |answers| {
          return None, transfer, polls;
        }
        answer := answers[polls];
        polls := polls + 1;
        if answer.Error? {
          return Some(if answer.ec == NoSuchEntity then Success else answer.ec), transfer, polls;
        }
        status := answer.status;
      }
    }
    rv := Some(Success);
  }
}
