/**
 What the daemon knows about jobs and adhoc storages, as a value: the metadata objects, identified by their position
 in a heap that only grows, and the three maps that lead to them. Pointers between objects are positions too.
 */
module Registry {
  import opened Common
  import AdhocStorageTypes

  type JobId = nat
  type SlurmId = nat
  type AdhocId = nat
  type JobRef = nat
  type AdhocRef = nat
  type Nodes = seq<string>
  type Info = AdhocStorageTypes.Info

  /** The copy of the adhoc storage description that a job's requirements carry. */
  datatype Wanted = Wanted(id: AdhocId, resources: Nodes)

  datatype Job = Job(id: JobId, slurmId: SlurmId, resources: Nodes, wants: Option<Wanted>, adhoc: Option<AdhocRef>)

  datatype Adhoc = Adhoc(id: AdhocId, info: Info, resources: Nodes, client: Option<JobRef>)

  datatype State = State(
    jobHeap: seq<Job>,
    adhocHeap: seq<Adhoc>,
    jobTickets: nat,
    adhocTickets: nat,
    jobs: map<JobId, JobRef>,         // m_jobs
    bySlurm: map<SlurmId, JobId>,     // m_slurm_to_scord
    adhocs: map<AdhocId, AdhocRef>)   // m_adhoc_storages

  const EMPTY := State([], [], 0, 0, map[], map[], map[])

  // ---------------------------------------------------------------------------------------------------------
  // The critical sections of the managers
  // ---------------------------------------------------------------------------------------------------------

  /** The locked part of `job_manager::create`: the Slurm index keeps an entry it already has. */
  function InsertJob(s: State, id: JobId, slurmId: SlurmId, resources: Nodes, wants: Option<Wanted>, adhoc: Option<AdhocRef>):
    (State, Expected<JobRef>)
  {
    if id in s.jobs then (s, Unexpected(EntityExists))
    else
      var ref := |s.jobHeap|;
      (s.(jobHeap := s.jobHeap + [Job(id, slurmId, resources, wants, adhoc)],
          jobs := s.jobs[id := ref],
          bySlurm := if slurmId in s.bySlurm then s.bySlurm else s.bySlurm[slurmId := id]),
       Value(ref))
  }

  /** `job_manager::remove`: the index entry of the job's Slurm id goes too, whichever job it names. */
  function EraseJob(s: State, id: JobId): (State, Expected<JobRef>)
    requires RefsOk(s)
  {
    if id !in s.jobs then (s, Unexpected(NoSuchEntity))
    else
      (s.(jobs := s.jobs - {id}, bySlurm := s.bySlurm - {s.jobHeap[s.jobs[id]].slurmId}), Value(s.jobs[id]))
  }

  function SetJobResources(s: State, id: JobId, resources: Nodes): (State, ErrorCode)
    requires RefsOk(s)
  {
    if id !in s.jobs then (s, NoSuchEntity)
    else
      var ref := s.jobs[id];
      (s.(jobHeap := s.jobHeap[ref := s.jobHeap[ref].(resources := resources)]), Success)
  }

  /** `job_manager::find_by_slurm_id` */
  function FindBySlurmId(s: State, slurmId: SlurmId): Expected<JobRef> {
    if slurmId in s.bySlurm && s.bySlurm[slurmId] in s.jobs then Value(s.jobs[s.bySlurm[slurmId]])
    else Unexpected(NoSuchEntity)
  }

  /** The locked part of `adhoc_storage_manager::create`. */
  function InsertAdhoc(s: State, id: AdhocId, info: Info, resources: Nodes): (State, Expected<AdhocId>) {
    if id in s.adhocs then (s, Unexpected(EntityExists))
    else
      (s.(adhocHeap := s.adhocHeap + [Adhoc(id, info, resources, None)],
          adhocs := s.adhocs[id := |s.adhocHeap|]),
       Value(id))
  }

  function EraseAdhoc(s: State, id: AdhocId): (State, ErrorCode) {
    if id in s.adhocs then (s.(adhocs := s.adhocs - {id}), Success) else (s, NoSuchEntity)
  }

  function SetAdhocResources(s: State, id: AdhocId, resources: Nodes): (State, ErrorCode)
    requires RefsOk(s)
  {
    if id !in s.adhocs then (s, NoSuchEntity)
    else
      var ref := s.adhocs[id];
      (s.(adhocHeap := s.adhocHeap[ref := s.adhocHeap[ref].(resources := resources)]), Success)
  }

  /** `adhoc_storage_metadata::add_client_info`: an occupied slot is left alone. */
  function AddClient(s: State, adhoc: AdhocRef, job: JobRef): (State, ErrorCode)
    requires adhoc < |s.adhocHeap|
  {
    if s.adhocHeap[adhoc].client.Some? then (s, AdhocInUse)
    else (s.(adhocHeap := s.adhocHeap[adhoc := s.adhocHeap[adhoc].(client := Some(job))]), Success)
  }

  /** `adhoc_storage_manager::remove_client_info`: the slot is cleared whoever holds it. */
  function ClearClient(s: State, id: AdhocId): (State, ErrorCode)
    requires RefsOk(s)
  {
    if id !in s.adhocs then (s, NoSuchEntity)
    else
      var ref := s.adhocs[id];
      (s.(adhocHeap := s.adhocHeap[ref := s.adhocHeap[ref].(client := None)]), Success)
  }

  /** The maps lead into the heaps. */
  predicate RefsOk(s: State) {
    && (forall id :: id in s.jobs ==> s.jobs[id] < |s.jobHeap|)
    && (forall id :: id in s.adhocs ==> s.adhocs[id] < |s.adhocHeap|)
  }

  // ---------------------------------------------------------------------------------------------------------
  // The handlers, each run without interference
  // ---------------------------------------------------------------------------------------------------------

  function RegisterJob(s: State, slurmId: SlurmId, resources: Nodes, wants: Option<Wanted>): (State, Expected<JobId>)
    requires RefsOk(s)
  {
    if wants.Some? && wants.value.id !in s.adhocs then (s, Unexpected(NoSuchEntity))
    else
      var adhoc := if wants.Some? then Some(s.adhocs[wants.value.id]) else None;
      var id := IdOf(s.jobTickets);
      var (s1, created) := InsertJob(s.(jobTickets := s.jobTickets + 1), id, slurmId, resources, wants, adhoc);
      match created
      case Unexpected(ec) => (s1, Unexpected(ec))
      case Value(ref) => (if adhoc.Some? then AddClient(s1, adhoc.value, ref).0 else s1, Value(id))
  }

  function RemoveJob(s: State, id: JobId): (State, ErrorCode)
    requires RefsOk(s)
  {
    var (s1, erased) := EraseJob(s, id);
    match erased
    case Unexpected(ec) => (s1, ec)
    case Value(ref) =>
      match s.jobHeap[ref].wants
      case None => (s1, Success)
      case Some(wanted) => ClearClient(s1, wanted.id)
  }

  function RegisterAdhoc(s: State, info: Info, resources: Nodes): (State, Expected<AdhocId>) {
    InsertAdhoc(s.(adhocTickets := s.adhocTickets + 1), IdOf(s.adhocTickets), info, resources)
  }

  datatype Resize = Expand | Shrink

  /** What update_adhoc_storage asks the storage's controller for: the call and the nodes it passes. */
  datatype Call = Call(resize: Resize, nodes: Nodes)

  /** How the attempt to reach the controller goes: without an endpoint nothing is sent. */
  datatype Contacted = NoEndpoint | CallFailed | Answered(ec: ErrorCode)

  /** The call that is sent, if it comes to one. */
  function Sent(call: Call, answer: Contacted): Option<Call> {
    if answer.NoEndpoint? then None else Some(call)
  }

  /** How a handler ends: with a reply, or with the exception of an empty `expected::value()`. */
  datatype Outcome = Replied(ec: ErrorCode) | Threw

  /** Equally many nodes count as shrinking. */
  function ResizeFor(before: nat, resources: Nodes): Resize {
    if |resources| > before then Resize.Expand else Resize.Shrink
  }

  /** The handler's ending once it has tried to reach the controller. */
  function Ending(answer: Contacted): Outcome {
    if answer.Answered? then Replied(answer.ec) else Threw
  }

  /**
   update_adhoc_storage. `answer` is what comes of the attempt to reach the controller. The resources stay updated even when
   the controller cannot be reached.
   */
  function UpdateAdhoc(s: State, id: AdhocId, resources: Nodes, answer: Contacted): (State, Option<Call>, Outcome)
    requires RefsOk(s)
  {
    if id !in s.adhocs then (s, None, Threw)
    else
      (SetAdhocResources(s, id, resources).0,
       Sent(Call(ResizeFor(|s.adhocHeap[s.adhocs[id]].resources|, resources), resources), answer),
       Ending(answer))
  }
}
