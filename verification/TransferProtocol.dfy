/**
 The life of dataset transfers as a concurrent protocol. Clients call the wait form of a transfer, the daemon's
 handlers serve them, the scheduler thread collects finished transfers, and Cargo makes progress on its own; a run
 is any interleaving of their atomic steps. A critical section of the transfer manager is one step, except the
 scheduler's, which holds the exclusive lock from `SchedLock` to `SchedUnlock`.
 */
module TransferProtocol {
  import opened Common
  import opened ClientWait
  import opened Transfers

  type JobId = nat
  type Client = nat

  /** A created transfer as its client knows it. */
  datatype Tx = Tx(id: TransferId, handle: Handle)

  datatype Phase =
    | Requested                              // the transfer_datasets handler has not started
    | JobChecked                             // it has found the job and its adhoc storage
    | Submitted(handle: Handle)              // Cargo has accepted the transfer
    | Claimed(handle: Handle, id: TransferId) // `current_id++` is done, the lock not yet taken
    | Polling                                // the client is about to query the transfer
    | QueryJobChecked                        // the query_transfer handler has found the job
    | QueryFound(handle: Handle)             // it has found the metadata
    | Over

  /**
   One call of ADM_transfer_datasets. `returned` is what the client got, which may be an RPC failure while the
   handler is still at work; `tx` is a history variable.
   */
  datatype Call = Call(job: JobId, wait: bool, phase: Phase, returned: Option<ErrorCode>, tx: Option<Tx>)

  /**
   Where the scheduler thread is; `snapshot`, `seen`, `sent` and `removedBefore` record what the pass found and
   what it told Cargo.
   */
  datatype Sched =
    | Idle
    | Visiting(snapshot: map<TransferId, Transfer>, seen: map<TransferId, Reading>, vIds: seq<TransferId>, sent: seq<Sent>)
    | Removing(snapshot: map<TransferId, Transfer>, seen: map<TransferId, Reading>, vIds: seq<TransferId>,
               next: nat, removedBefore: set<TransferId>)

  /** `created` and `removed` are history variables; everything else is state of the daemon, Cargo or the clients. */
  datatype State = State(
    jobs: map<JobId, bool>,               // live jobs, and whether each has an adhoc storage
    knownJobs: set<JobId>,                // every job ever registered
    cargo: map<Handle, CargoState>,
    tickets: nat,
    live: map<TransferId, Transfer>,
    created: map<TransferId, Handle>,
    removed: set<TransferId>,
    sched: Sched,
    calls: map<Client, Call>)

  const INITIAL := State(map[], {}, map[], 0, map[], map[], {}, Idle, map[])

  datatype Step =
    | RegisterJob(job: JobId, hasAdhoc: bool)
    | RemoveJob(job: JobId)
    | CargoProgress(handle: Handle, state: CargoState)
    | Request(c: Client, job: JobId, wait: bool)
    | CheckJob(c: Client)
    | Submit(c: Client, handle: Handle)
    | TakeTicket(c: Client)
    | Insert(c: Client, limits: seq<nat>)
    | QueryJob(c: Client)
    | QueryFind(c: Client)
    | QueryStatus(c: Client)
    | RpcFails(c: Client)
    | SchedLock
    | SchedVisit(id: TransferId, bw: real)
    | SchedUnlock
    | SchedRemove
    | SchedEnd

  predicate LockFree(s: State) {
    !s.sched.Visiting?
  }

  /** Whether client `c` has a call in progress. */
  predicate Active(s: State, c: Client) {
    c in s.calls && s.calls[c].returned.None?
  }

  /** The call after its handler or poll loop ends with `rv`; a client that has already given up keeps its error. */
  function Finish(call: Call, rv: ErrorCode): Call {
    call.(phase := Over, returned := if call.returned.Some? then call.returned else Some(rv))
  }

  function SetCall(s: State, c: Client, call: Call): State {
    s.(calls := s.calls[c := call])
  }

  /** The RPC the client is waiting for is a query, not the creation. */
  predicate Polls(call: Call) {
    call.phase.Polling? || call.phase.QueryJobChecked? || call.phase.QueryFound?
  }

  predicate Enabled(s: State, step: Step) {
    match step
    case RegisterJob(job, _) => job !in s.knownJobs
    case RemoveJob(job) => job in s.jobs
    case CargoProgress(handle, _) => handle in s.cargo && !s.cargo[handle].Terminal()
    case Request(c, _, _) => c !in s.calls
    case CheckJob(c) => c in s.calls && s.calls[c].phase.Requested?
    case Submit(c, handle) => c in s.calls && s.calls[c].phase.JobChecked? && handle !in s.cargo
    case TakeTicket(c) => c in s.calls && s.calls[c].phase.Submitted?
    case Insert(c, _) => c in s.calls && s.calls[c].phase.Claimed? && LockFree(s)
    case QueryJob(c) => Active(s, c) && s.calls[c].phase.Polling?
    case QueryFind(c) => Active(s, c) && s.calls[c].phase.QueryJobChecked? && s.calls[c].tx.Some? && LockFree(s)
    case QueryStatus(c) => Active(s, c) && s.calls[c].phase.QueryFound? && s.calls[c].phase.handle in s.cargo
    case RpcFails(c) => Active(s, c)
    case SchedLock => s.sched.Idle?
    case SchedVisit(id, _) =>
      && s.sched.Visiting? && id in s.sched.snapshot && id !in s.sched.seen
      && id in s.live && s.sched.snapshot[id].handle in s.cargo
    case SchedUnlock => s.sched.Visiting? && s.sched.seen.Keys == s.sched.snapshot.Keys
    case SchedRemove => s.sched.Removing? && s.sched.next < |s.sched.vIds|
    case SchedEnd => s.sched.Removing? && s.sched.next == |s.sched.vIds|
  }

  /** The query handler's and the transfer handler's common first lookups: the error they answer with, if any. */
  function JobError(s: State, job: JobId): Option<ErrorCode> {
    if job !in s.jobs then Some(NoSuchEntity) else if !s.jobs[job] then Some(NoResources) else None
  }

  /** The call once the poll loop has reacted to an answer of query_transfer. */
  function React(call: Call, answer: Answer): Call {
    match Verdict(answer)
    case Some(rv) => Finish(call, rv)
    case None => call.(phase := Polling)
  }

  function DoInsert(s: State, c: Client, limits: seq<nat>): State
    requires Enabled(s, Insert(c, limits))
  {
    var call := s.calls[c];
    var Claimed(handle, id) := call.phase;
    if id in s.live then SetCall(s, c, Finish(call, EntityExists))
    else
      var call' := if call.wait && call.returned.None? then call.(phase := Polling) else Finish(call, Success);
      SetCall(s, c, call'.(tx := Some(Tx(id, handle))))
        .(live := s.live[id := Transfer(handle, limits, UNMEASURED)], created := s.created[id := handle])
  }

  function DoQueryFind(s: State, c: Client): State
    requires Enabled(s, QueryFind(c))
  {
    var call := s.calls[c];
    var id := call.tx.value.id;
    SetCall(s, c, if id in s.live then call.(phase := QueryFound(s.live[id].handle))
                  else React(call, Error(NoSuchEntity)))
  }

  function DoQueryStatus(s: State, c: Client): State
    requires Enabled(s, QueryStatus(c))
  {
    var call := s.calls[c];
    SetCall(s, c, React(call, Status(FromCargo(s.cargo[call.phase.handle]))))
  }

  function DoSchedVisit(s: State, id: TransferId, bw: real): State
    requires Enabled(s, SchedVisit(id, bw))
  {
    var v := s.sched;
    var r := Reading(s.cargo[v.snapshot[id].handle], bw);
    s.(live := s.live[id := Measured(s.live[id], r)],
       sched := Visiting(v.snapshot, v.seen[id := r], v.vIds + Collected(id, r), v.sent + Signalled(id, s.live[id], r)))
  }

  /** Removing an identifier that is gone changes nothing: the scheduler ignores the error. */
  function DoSchedRemove(s: State): State
    requires Enabled(s, SchedRemove)
  {
    var id := s.sched.vIds[s.sched.next];
    s.(live := s.live - {id}, removed := if id in s.live then s.removed + {id} else s.removed,
       sched := s.sched.(next := s.sched.next + 1))
  }

  function Apply(s: State, step: Step): State
    requires Enabled(s, step)
  {
    match step
    case RegisterJob(job, hasAdhoc) => s.(jobs := s.jobs[job := hasAdhoc], knownJobs := s.knownJobs + {job})
    case RemoveJob(job) => s.(jobs := s.jobs - {job})
    case CargoProgress(handle, state) => s.(cargo := s.cargo[handle := state])
    case Request(c, job, wait) => SetCall(s, c, Call(job, wait, Requested, None, None))
    case CheckJob(c) =>
      (match JobError(s, s.calls[c].job)
       case Some(ec) => SetCall(s, c, Finish(s.calls[c], ec))
       case None => SetCall(s, c, s.calls[c].(phase := JobChecked)))
    case Submit(c, handle) =>
      SetCall(s, c, s.calls[c].(phase := Submitted(handle))).(cargo := s.cargo[handle := Pending])
    case TakeTicket(c) =>
      SetCall(s, c, s.calls[c].(phase := Claimed(s.calls[c].phase.handle, IdOf(s.tickets)))).(tickets := s.tickets + 1)
    case Insert(c, limits) => DoInsert(s, c, limits)
    case QueryJob(c) =>
      (match JobError(s, s.calls[c].job)
       case Some(ec) => SetCall(s, c, React(s.calls[c], Error(ec)))
       case None => SetCall(s, c, s.calls[c].(phase := QueryJobChecked)))
    case QueryFind(c) => DoQueryFind(s, c)
    case QueryStatus(c) => DoQueryStatus(s, c)
    case RpcFails(c) =>
      SetCall(s, c, if Polls(s.calls[c]) then React(s.calls[c], Error(Other)) else s.calls[c].(returned := Some(Other)))
    case SchedLock => s.(sched := Visiting(s.live, map[], [], []))
    case SchedVisit(id, bw) => DoSchedVisit(s, id, bw)
    case SchedUnlock => s.(sched := Removing(s.sched.snapshot, s.sched.seen, s.sched.vIds, 0, s.removed))
    case SchedRemove => DoSchedRemove(s)
    case SchedEnd => s.(sched := Idle)
  }

  /** The state after a run, or None if some step of it was not enabled. */
  function Exec(steps: seq<Step>): Option<State> {
    if steps == [] then Some(INITIAL)
    else
      var last := |steps| - 1;
      match Exec(steps[..last])
      case None => None
      case Some(s) => if Enabled(s, steps[last]) then Some(Apply(s, steps[last])) else None
  }

  // ---------------------------------------------------------------------------------------------------------
  // The invariant
  // ---------------------------------------------------------------------------------------------------------

  /** Identifiers: what was created is live or removed, never both, and no pending claim collides with anything. */
  ghost predicate IdsInv(s: State) {
    && s.created.Keys == s.live.Keys + s.removed
    && s.live.Keys !! s.removed
    && (forall id :: id in s.created ==> id < s.tickets)
    && (forall id :: id in s.live ==> s.live[id].handle == s.created[id])
    && (forall id :: id in s.created ==> s.created[id] in s.cargo)
    && (forall id :: id in s.removed ==> s.cargo[s.created[id]].Terminal())
  }

  ghost predicate ClaimsInv(s: State) {
    && (forall c :: c in s.calls && s.calls[c].phase.Submitted? ==> s.calls[c].phase.handle in s.cargo)
    && (forall c :: c in s.calls && s.calls[c].phase.Claimed? ==>
          && s.calls[c].phase.handle in s.cargo && s.calls[c].phase.id < s.tickets && s.calls[c].phase.id !in s.created)
    && (forall c, c' :: c in s.calls && c' in s.calls && c != c' && s.calls[c].phase.Claimed? && s.calls[c'].phase.Claimed?
          ==> s.calls[c].phase.id != s.calls[c'].phase.id)
  }

  ghost predicate CallInv(s: State, call: Call) {
    && (!call.phase.Requested? && !call.phase.Over? ==> call.job in s.knownJobs)
    && (!call.phase.Over? && call.returned.Some? ==> call.returned == Some(Other))
    && (call.job in s.jobs && (call.tx.Some? || (!call.phase.Requested? && !call.phase.Over?)) ==> s.jobs[call.job])
    && (call.tx.Some? ==>
          && call.job in s.knownJobs && call.tx.value.id in s.created && s.created[call.tx.value.id] == call.tx.value.handle)
    && (call.phase.Polling? || call.phase.QueryJobChecked? || call.phase.QueryFound? ==> call.tx.Some? && call.wait)
    && (call.phase.QueryFound? ==> call.phase.handle == call.tx.value.handle)
    && (call.wait && call.returned == Some(Success) ==> call.tx.Some? && (Ended(s, call.tx.value) || call.job !in s.jobs))
  }

  /** The transfer has reached a terminal state in Cargo. */
  predicate Ended(s: State, tx: Tx) {
    tx.handle in s.cargo && s.cargo[tx.handle].Terminal()
  }

  /** What the pass has collected so far: the visited identifiers it saw terminal, each once. */
  ghost predicate CollectedInv(s: State, snapshot: map<TransferId, Transfer>, seen: map<TransferId, Reading>, vIds: seq<TransferId>) {
    && seen.Keys <= snapshot.Keys
    && (forall id :: id in vIds <==> id in seen && seen[id].state.Terminal())
    && (forall i, j :: 0 <= i < j < |vIds| ==> vIds[i] != vIds[j])
    && (forall id :: id in snapshot ==> id in s.created && s.created[id] == snapshot[id].handle && s.created[id] in s.cargo)
    && (forall id :: id in vIds ==> s.cargo[s.created[id]].Terminal())
  }

  ghost predicate SchedInv(s: State) {
    match s.sched
    case Idle => true
    case Visiting(snapshot, seen, vIds, _) => CollectedInv(s, snapshot, seen, vIds) && snapshot.Keys == s.live.Keys
    case Removing(snapshot, seen, vIds, next, removedBefore) =>
      && CollectedInv(s, snapshot, seen, vIds)
      && seen.Keys == snapshot.Keys
      && next <= |vIds|
      && (forall i :: next <= i < |vIds| ==> vIds[i] in s.live)
      && s.removed == removedBefore + (set i | 0 <= i < next :: vIds[i])
      && removedBefore !! snapshot.Keys
  }

  ghost predicate Inv(s: State) {
    && s.jobs.Keys <= s.knownJobs
    && IdsInv(s) && ClaimsInv(s) && SchedInv(s)
    && (forall c :: c in s.calls ==> CallInv(s, s.calls[c]))
  }
}
