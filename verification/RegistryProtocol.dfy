/**
 The job and adhoc storage handlers as a concurrent protocol: register_job, remove_job, register_adhoc_storage and
 update_adhoc_storage are several steps each, one for every critical section and one for every identifier drawn
 outside the lock, and any other handler may run between two of them.
 */
module RegistryProtocol {
  import opened Common
  import opened Registry

  type ThreadId = nat

  datatype Thread =
    | Registering(slurmId: SlurmId, resources: Nodes, wants: Option<Wanted>)
    | AdhocFound(slurmId: SlurmId, resources: Nodes, wants: Option<Wanted>, adhoc: Option<AdhocRef>)
    | Ticketed(slurmId: SlurmId, resources: Nodes, wants: Option<Wanted>, adhoc: Option<AdhocRef>, id: JobId)
    | Created(adhoc: Option<AdhocRef>, job: JobRef)  // the job is live, its identifier not yet returned
    | Registered(result: Expected<JobId>)
    | Erased(job: JobRef)                            // remove_job before it clears the client slot
    | Removed(ec: ErrorCode)
    | AdhocTicketed(info: Info, nodes: Nodes, adhocId: AdhocId)
    | AdhocRegistered(reply: Expected<AdhocId>)
    | Counted(storage: AdhocId, wanted: Nodes, before: nat)  // update_adhoc_storage before it sets the resources
    | Resized(storage: AdhocId, resize: Resize)              // and before it looks the storage up again
    | Updated(sent: Option<Call>, outcome: Outcome)

  datatype System = System(reg: State, threads: map<ThreadId, Thread>)

  const INITIAL := System(EMPTY, map[])

  datatype Step =
    | StartRegister(t: ThreadId, slurmId: SlurmId, resources: Nodes, wants: Option<Wanted>)
    | FindAdhoc(t: ThreadId)
    | TakeTicket(t: ThreadId)
    | Create(t: ThreadId)
    | Enlist(t: ThreadId)
    | Erase(t: ThreadId, id: JobId)
    | Unlist(t: ThreadId)
    | ResizeJob(job: JobId, resources: Nodes)
    | TakeAdhocTicket(t: ThreadId, info: Info, resources: Nodes)
    | CreateAdhoc(t: ThreadId)
    | CountNodes(t: ThreadId, adhoc: AdhocId, resources: Nodes)
    | SetNodes(t: ThreadId)
    | Contact(t: ThreadId, answer: Contacted)
    | DropAdhoc(adhoc: AdhocId)

  predicate Enabled(y: System, step: Step) {
    RefsOk(y.reg) &&
    match step
    case StartRegister(t, _, _, _) => t !in y.threads
    case FindAdhoc(t) => t in y.threads && y.threads[t].Registering?
    case TakeTicket(t) => t in y.threads && y.threads[t].AdhocFound?
    case Create(t) => t in y.threads && y.threads[t].Ticketed?
    case Enlist(t) =>
      && t in y.threads && y.threads[t].Created? && y.threads[t].job < |y.reg.jobHeap|
      && (y.threads[t].adhoc.Some? ==> y.threads[t].adhoc.value < |y.reg.adhocHeap|)
    case Erase(t, _) => t !in y.threads
    case Unlist(t) => t in y.threads && y.threads[t].Erased? && y.threads[t].job < |y.reg.jobHeap|
    case TakeAdhocTicket(t, _, _) => t !in y.threads
    case CreateAdhoc(t) => t in y.threads && y.threads[t].AdhocTicketed?
    case CountNodes(t, _, _) => t !in y.threads
    case SetNodes(t) => t in y.threads && y.threads[t].Counted?
    case Contact(t, _) => t in y.threads && y.threads[t].Resized?
    case _ => true
  }

  function SetThread(y: System, t: ThreadId, thread: Thread): System {
    y.(threads := y.threads[t := thread])
  }

  function DoFindAdhoc(y: System, t: ThreadId): System
    requires Enabled(y, FindAdhoc(t))
  {
    var Registering(slurmId, resources, wants) := y.threads[t];
    if wants.None? then SetThread(y, t, AdhocFound(slurmId, resources, wants, None))
    else if wants.value.id in y.reg.adhocs then
      SetThread(y, t, AdhocFound(slurmId, resources, wants, Some(y.reg.adhocs[wants.value.id])))
    else SetThread(y, t, Registered(Unexpected(NoSuchEntity)))
  }

  function DoTakeTicket(y: System, t: ThreadId): System
    requires Enabled(y, TakeTicket(t))
  {
    var AdhocFound(slurmId, resources, wants, adhoc) := y.threads[t];
    System(y.reg.(jobTickets := y.reg.jobTickets + 1),
           y.threads[t := Ticketed(slurmId, resources, wants, adhoc, IdOf(y.reg.jobTickets))])
  }

  function DoCreate(y: System, t: ThreadId): System
    requires Enabled(y, Create(t))
  {
    var Ticketed(slurmId, resources, wants, adhoc, id) := y.threads[t];
    var (reg, created) := InsertJob(y.reg, id, slurmId, resources, wants, adhoc);
    match created
    case Unexpected(ec) => System(reg, y.threads[t := Registered(Unexpected(ec))])
    case Value(ref) => System(reg, y.threads[t := Created(adhoc, ref)])
  }

  function DoEnlist(y: System, t: ThreadId): System
    requires Enabled(y, Enlist(t))
  {
    var Created(adhoc, job) := y.threads[t];
    System(if adhoc.Some? then AddClient(y.reg, adhoc.value, job).0 else y.reg,
           y.threads[t := Registered(Value(y.reg.jobHeap[job].id))])
  }

  function DoErase(y: System, t: ThreadId, id: JobId): System
    requires Enabled(y, Erase(t, id))
  {
    var (reg, erased) := EraseJob(y.reg, id);
    match erased
    case Unexpected(ec) => System(reg, y.threads[t := Removed(ec)])
    case Value(ref) => System(reg, y.threads[t := Erased(ref)])
  }

  function DoUnlist(y: System, t: ThreadId): System
    requires Enabled(y, Unlist(t))
  {
    match y.reg.jobHeap[y.threads[t].job].wants
    case None => SetThread(y, t, Removed(Success))
    case Some(wanted) =>
      var (reg, ec) := ClearClient(y.reg, wanted.id);
      System(reg, y.threads[t := Removed(ec)])
  }

  function DoTakeAdhocTicket(y: System, t: ThreadId, info: Info, resources: Nodes): System {
    System(y.reg.(adhocTickets := y.reg.adhocTickets + 1),
           y.threads[t := AdhocTicketed(info, resources, IdOf(y.reg.adhocTickets))])
  }

  function DoCreateAdhoc(y: System, t: ThreadId): System
    requires Enabled(y, CreateAdhoc(t))
  {
    var AdhocTicketed(info, resources, id) := y.threads[t];
    var (reg, reply) := InsertAdhoc(y.reg, id, info, resources);
    System(reg, y.threads[t := AdhocRegistered(reply)])
  }

  /** The handler reads the number of nodes through an `expected` that may be empty. */
  function DoCountNodes(y: System, t: ThreadId, adhoc: AdhocId, resources: Nodes): System
    requires RefsOk(y.reg)
  {
    SetThread(y, t, if adhoc in y.reg.adhocs then Counted(adhoc, resources, |y.reg.adhocHeap[y.reg.adhocs[adhoc]].resources|)
                    else Updated(None, Threw))
  }

  /** The outcome of setting the resources is only logged. */
  function DoSetNodes(y: System, t: ThreadId): System
    requires Enabled(y, SetNodes(t))
  {
    var Counted(storage, resources, before) := y.threads[t];
    System(SetAdhocResources(y.reg, storage, resources).0, y.threads[t := Resized(storage, ResizeFor(before, resources))])
  }

  /** The call passes whatever nodes the storage has by now. */
  function DoContact(y: System, t: ThreadId, answer: Contacted): System
    requires Enabled(y, Contact(t, answer))
  {
    var Resized(storage, resize) := y.threads[t];
    SetThread(y, t, if storage in y.reg.adhocs then
                      Updated(Sent(Call(resize, y.reg.adhocHeap[y.reg.adhocs[storage]].resources), answer), Ending(answer))
                    else Updated(None, Threw))
  }

  function Apply(y: System, step: Step): System
    requires Enabled(y, step)
  {
    match step
    case StartRegister(t, slurmId, resources, wants) => SetThread(y, t, Registering(slurmId, resources, wants))
    case FindAdhoc(t) => DoFindAdhoc(y, t)
    case TakeTicket(t) => DoTakeTicket(y, t)
    case Create(t) => DoCreate(y, t)
    case Enlist(t) => DoEnlist(y, t)
    case Erase(t, id) => DoErase(y, t, id)
    case Unlist(t) => DoUnlist(y, t)
    case ResizeJob(job, resources) => y.(reg := SetJobResources(y.reg, job, resources).0)
    case TakeAdhocTicket(t, info, resources) => DoTakeAdhocTicket(y, t, info, resources)
    case CreateAdhoc(t) => DoCreateAdhoc(y, t)
    case CountNodes(t, adhoc, resources) => DoCountNodes(y, t, adhoc, resources)
    case SetNodes(t) => DoSetNodes(y, t)
    case Contact(t, answer) => DoContact(y, t, answer)
    case DropAdhoc(adhoc) => y.(reg := EraseAdhoc(y.reg, adhoc).0)
  }

  function Exec(steps: seq<Step>): Option<System> {
    if steps == [] then Some(INITIAL)
    else
      var last := |steps| - 1;
      match Exec(steps[..last])
      case None => None
      case Some(y) => if Enabled(y, steps[last]) then Some(Apply(y, steps[last])) else None
  }

  /**
   What a removal relies on: nobody removes a job before the registration that created it has returned its
   identifier.
   */
  predicate Polite(y: System, step: Step) {
    step.Erase? && step.id in y.reg.jobs ==>
      forall t :: t in y.threads && y.threads[t].Created? ==> y.threads[t].job != y.reg.jobs[step.id]
  }

  ghost predicate PoliteRun(steps: seq<Step>) {
    steps == [] ||
    (var last := |steps| - 1;
     && PoliteRun(steps[..last])
     && (Exec(steps[..last]).Some? ==> Polite(Exec(steps[..last]).value, steps[last])))
  }

  /** Neither counter has wrapped around. */
  predicate Unwrapped(s: State) {
    s.jobTickets <= WORD && s.adhocTickets <= WORD
  }

  // ---------------------------------------------------------------------------------------------------------
  // The invariants
  // ---------------------------------------------------------------------------------------------------------

  /** Job `ref` is registered. */
  predicate Live(s: State, ref: JobRef) {
    ref < |s.jobHeap| && s.jobHeap[ref].id in s.jobs && s.jobs[s.jobHeap[ref].id] == ref
  }

  /** The object in the heap that the job requires, under the identifier it requires. */
  predicate LinkOk(s: State, wants: Option<Wanted>, adhoc: Option<AdhocRef>) {
    && (wants.Some? <==> adhoc.Some?)
    && (adhoc.Some? ==> adhoc.value < |s.adhocHeap| && s.adhocHeap[adhoc.value].id == wants.value.id)
  }

  ghost predicate JobHeapInv(s: State)
    requires RefsOk(s)
  {
    && (forall id :: id in s.jobs ==> s.jobHeap[s.jobs[id]].id == id)
    && (forall i :: 0 <= i < |s.jobHeap| ==> s.jobHeap[i].id < s.jobTickets && LinkOk(s, s.jobHeap[i].wants, s.jobHeap[i].adhoc))
    && (forall i, j :: 0 <= i < j < |s.jobHeap| ==> s.jobHeap[i].id != s.jobHeap[j].id)
  }

  ghost predicate AdhocHeapInv(s: State)
    requires RefsOk(s)
  {
    && (forall id :: id in s.adhocs ==> s.adhocHeap[s.adhocs[id]].id == id)
    && (forall i :: 0 <= i < |s.adhocHeap| ==> s.adhocHeap[i].id < s.adhocTickets)
    && (forall i, j :: 0 <= i < j < |s.adhocHeap| ==> s.adhocHeap[i].id != s.adhocHeap[j].id)
  }

  /** The maps lead to objects that carry the key, and no two objects of a kind carry the same identifier. */
  ghost predicate HeapInv(s: State) {
    RefsOk(s) && JobHeapInv(s) && AdhocHeapInv(s)
  }

  /** Every entry of the Slurm index names a live job carrying that Slurm id. */
  ghost predicate IndexSound(s: State) {
    forall k :: k in s.bySlurm ==>
      s.bySlurm[k] in s.jobs && s.jobs[s.bySlurm[k]] < |s.jobHeap| && s.jobHeap[s.jobs[s.bySlurm[k]]].slurmId == k
  }

  ghost predicate ThreadInv(s: State, thread: Thread) {
    match thread
    case AdhocFound(_, _, wants, adhoc) => LinkOk(s, wants, adhoc)
    case Ticketed(_, _, wants, adhoc, id) =>
      LinkOk(s, wants, adhoc) && id < s.jobTickets && forall i :: 0 <= i < |s.jobHeap| ==> s.jobHeap[i].id != id
    case Created(adhoc, job) => job < |s.jobHeap| && s.jobHeap[job].adhoc == adhoc
    case AdhocTicketed(_, _, id) => id < s.adhocTickets && forall i :: 0 <= i < |s.adhocHeap| ==> s.adhocHeap[i].id != id
    case Erased(job) => job < |s.jobHeap| && !Live(s, job)
    case _ => true
  }

  /** What only one thread may hold: an identifier it has drawn, or a job it has created. */
  datatype Claim = OfJobId(id: JobId) | OfJob(job: JobRef) | OfAdhocId(adhocId: AdhocId)

  function ClaimOf(thread: Thread): Option<Claim> {
    match thread
    case Ticketed(_, _, _, _, id) => Some(OfJobId(id))
    case Created(_, job) => Some(OfJob(job))
    case AdhocTicketed(_, _, id) => Some(OfAdhocId(id))
    case _ => None
  }

  predicate Apart(a: Thread, b: Thread) {
    ClaimOf(a).None? || ClaimOf(a) != ClaimOf(b)
  }

  ghost predicate ThreadsInv(y: System) {
    && (forall t :: t in y.threads ==> ThreadInv(y.reg, y.threads[t]))
    && (forall t, t' :: t in y.threads && t' in y.threads && t != t' ==> Apart(y.threads[t], y.threads[t']))
  }

  /** A client slot holds a job whose own pointer leads back to that very object. */
  ghost predicate SlotsPointBack(s: State) {
    forall r :: 0 <= r < |s.adhocHeap| && s.adhocHeap[r].client.Some? ==>
      var job := s.adhocHeap[r].client.value; job < |s.jobHeap| && s.jobHeap[job].adhoc == Some(r)
  }

  ghost predicate StateInv(s: State) {
    HeapInv(s) && IndexSound(s) && SlotsPointBack(s)
  }

  /** What every run keeps. */
  ghost predicate Inv(y: System) {
    StateInv(y.reg) && ThreadsInv(y)
  }

  /**
   What no step changes: objects stay where they are, and of an object only the resources and the client slot are
   ever reassigned; a job that is not registered never is again.
   */
  ghost predicate Evolves(s: State, s': State) {
    && |s.jobHeap| <= |s'.jobHeap| && |s.adhocHeap| <= |s'.adhocHeap|
    && s.jobTickets <= s'.jobTickets && s.adhocTickets <= s'.adhocTickets
    && (forall i :: 0 <= i < |s.jobHeap| ==> s.jobHeap[i] == s'.jobHeap[i].(resources := s.jobHeap[i].resources))
    && (forall i :: 0 <= i < |s.adhocHeap| ==>
          s.adhocHeap[i] == s'.adhocHeap[i].(resources := s.adhocHeap[i].resources, client := s.adhocHeap[i].client))
    && (forall i :: 0 <= i < |s.jobHeap| && !Live(s, i) ==> !Live(s', i))
  }

  /** A job whose registration has not returned is still there. */
  ghost predicate CreatedLive(y: System) {
    forall t :: t in y.threads && y.threads[t].Created? ==> Live(y.reg, y.threads[t].job)
  }

  /** A remove_job for this job is under way. */
  ghost predicate BeingRemoved(y: System, job: JobRef) {
    exists t :: t in y.threads && y.threads[t] == Erased(job)
  }

  /** The client of a registered adhoc storage is live, or its removal is under way. */
  ghost predicate SlotsLive(y: System) {
    forall id :: id in y.reg.adhocs && y.reg.adhocs[id] < |y.reg.adhocHeap| && y.reg.adhocHeap[y.reg.adhocs[id]].client.Some? ==>
      var job := y.reg.adhocHeap[y.reg.adhocs[id]].client.value; Live(y.reg, job) || BeingRemoved(y, job)
  }

  /** What every polite run keeps as well. */
  ghost predicate ClientsInv(y: System) {
    CreatedLive(y) && SlotsLive(y)
  }
}
