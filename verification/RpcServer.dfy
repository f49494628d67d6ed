/**
 The daemon's job and adhoc storage handlers over their managers. `state` is the abstract value of everything the
 server reaches; `Valid` ties it to the objects, sharing included: a pointer field holds the very object that the
 state's reference names.
 */
module RpcServer {
  import opened Common
  import opened Registry
  import opened Managers

  /** What a query answers: the address of the storage's controller, the storage's uuid, and how many nodes the job has. */
  datatype JobInfo = JobInfo(controller: string, uuid: string, ioProcs: nat)

  /** How `query` ends; the handler reads through the job's adhoc pointer without testing it. */
  datatype QueryOutcome = Info(info: JobInfo) | Failed(ec: ErrorCode) | NullPointer

  /** A manager's map of objects mirrors a map of references into the heap `objs`. */
  ghost predicate Mirrors<T>(objects: map<nat, T>, refs: map<nat, nat>, objs: seq<T>) {
    forall id :: id in refs ==> id in objects && refs[id] < |objs| && objects[id] == objs[refs[id]]
  }

  lemma MirrorsGrown<T>(objects: map<nat, T>, refs: map<nat, nat>, objs: seq<T>, id: nat, added: T)
    requires Mirrors(objects, refs, objs) && id !in refs
    ensures Mirrors(objects[id := added], refs[id := |objs|], objs + [added])
  {
  }

  class RpcServer {
    const jobManager: JobManager
    const adhocManager: AdhocStorageManager
    ghost var jobObjs: seq<JobMetadata>
    ghost var adhocObjs: seq<AdhocStorageMetadata>
    ghost var state: State

    ghost predicate JobMatches(j: JobMetadata, v: Job)
      reads this`adhocObjs, j
    {
      && j.id == v.id && j.slurmId == v.slurmId && j.resources == Some(v.resources) && j.wants == v.wants
      && (match v.adhoc case None => j.adhoc == null case Some(r) => r < |adhocObjs| && j.adhoc == adhocObjs[r])
    }

    ghost predicate AdhocMatches(a: AdhocStorageMetadata, v: Adhoc)
      reads this`jobObjs, a
    {
      && a.id == v.id && a.info == v.info && a.resources == v.resources
      && (match v.client case None => a.client == null case Some(j) => j < |jobObjs| && a.client == jobObjs[j])
    }

    ghost predicate ObjectsMatch()
      reads this, jobObjs, adhocObjs
    {
      && |jobObjs| == |state.jobHeap| && |adhocObjs| == |state.adhocHeap|
      && (forall i :: 0 <= i < |jobObjs| ==> JobMatches(jobObjs[i], state.jobHeap[i]))
      && (forall i :: 0 <= i < |adhocObjs| ==> AdhocMatches(adhocObjs[i], state.adhocHeap[i]))
      && (forall i, j :: 0 <= i < j < |jobObjs| ==> jobObjs[i] != jobObjs[j])
      && (forall i, j :: 0 <= i < j < |adhocObjs| ==> adhocObjs[i] != adhocObjs[j])
    }

    ghost predicate MapsMatch()
      reads this, jobManager, adhocManager
    {
      && jobManager.tickets == state.jobTickets && adhocManager.tickets == state.adhocTickets
      && jobManager.slurmToScord == state.bySlurm
      && jobManager.jobs.Keys == state.jobs.Keys && adhocManager.adhocStorages.Keys == state.adhocs.Keys
      && Mirrors(jobManager.jobs, state.jobs, jobObjs)
      && Mirrors(adhocManager.adhocStorages, state.adhocs, adhocObjs)
    }

    ghost predicate Valid()
      reads this, jobManager, adhocManager, jobObjs, adhocObjs
    {
      RefsOk(state) && ObjectsMatch() && MapsMatch()
    }

    constructor ()
      ensures Valid() && state == EMPTY
    {
      jobManager := new JobManager();
      adhocManager := new AdhocStorageManager();
      jobObjs, adhocObjs, state := [], [], EMPTY;
    }

    lemma FoundAdhoc(id: AdhocId)
      requires Valid()
      ensures id in adhocManager.adhocStorages <==> id in state.adhocs
      ensures id in state.adhocs ==>
                state.adhocs[id] < |adhocObjs| && adhocManager.adhocStorages[id] == adhocObjs[state.adhocs[id]]
    {
    }

    lemma FoundJob(id: JobId)
      requires Valid()
      ensures id in jobManager.jobs <==> id in state.jobs
      ensures id in state.jobs ==> state.jobs[id] < |jobObjs| && jobManager.jobs[id] == jobObjs[state.jobs[id]]
    {
    }

    method RegisterAdhocStorage(info: Info, resources: Nodes) returns (r: Expected<AdhocId>)
      requires Valid()
      modifies this`state, this`adhocObjs, adhocManager
      ensures Valid()
      ensures (state, r) == RegisterAdhoc(old(state), info, resources)
    {
      hide JobMatches, AdhocMatches, Mirrors;
      ghost var storages := adhocManager.adhocStorages;
      ghost var after := RegisterAdhoc(state, info, resources).0;
      var created := adhocManager.Create(info, resources);
      if created.Value? {
        MirrorsGrown(storages, state.adhocs, adhocObjs, created.value.id, created.value);
        NewAdhocMatches(created.value, info, resources);
        AdoptAdhoc(created.value, after);
        r := Value(created.value.id);
      } else {
        state := after;
        r := Unexpected(created.error);
      }
    }

    lemma NewAdhocMatches(a: AdhocStorageMetadata, info: Info, resources: Nodes)
      requires a.info == info && a.resources == resources && a.client == null
      ensures AdhocMatches(a, Adhoc(a.id, info, resources, None))
    {
    }

    /** Moves the abstract state on to one whose heap has a new adhoc storage object. */
    ghost method AdoptAdhoc(a: AdhocStorageMetadata, after: State)
      requires ObjectsMatch() && a !in adhocObjs
      requires |after.adhocHeap| == |state.adhocHeap| + 1 && after.adhocHeap[..|state.adhocHeap|] == state.adhocHeap
      requires AdhocMatches(a, after.adhocHeap[|state.adhocHeap|]) && after.jobHeap == state.jobHeap
      modifies this`state, this`adhocObjs
      ensures ObjectsMatch() && adhocObjs == old(adhocObjs) + [a] && state == after
    {
      assert forall i :: 0 <= i < |state.adhocHeap| ==> after.adhocHeap[i] == state.adhocHeap[i];
      adhocObjs := adhocObjs + [a];
      state := after;
    }

    /** register_job's critical section on the job manager. */
    method CreateJob(slurmId: SlurmId, resources: Nodes, wants: Option<Wanted>, adhoc: AdhocStorageMetadata?, ghost ref: Option<AdhocRef>)
      returns (created: Expected<JobMetadata>)
      requires Valid()
      requires (match ref case None => adhoc == null case Some(r) => r < |adhocObjs| && adhoc == adhocObjs[r])
      modifies this`state, this`jobObjs, jobManager
      ensures Valid() && |jobObjs| == |state.jobHeap|
      ensures state == InsertJob(old(state).(jobTickets := old(state).jobTickets + 1), IdOf(old(state).jobTickets),
                                 slurmId, resources, wants, ref).0
      ensures created.Value? <==> IdOf(old(state).jobTickets) !in old(state).jobs
      ensures created.Unexpected? ==> created.error == EntityExists
      ensures created.Value? ==>
                |jobObjs| == |old(jobObjs)| + 1 && jobObjs[|jobObjs| - 1] == created.value && created.value.id == IdOf(old(state).jobTickets)
    {
      hide JobMatches, AdhocMatches, Mirrors;
      ghost var id, jobManagerJobs := IdOf(state.jobTickets), jobManager.jobs;
      ghost var after := InsertJob(state.(jobTickets := state.jobTickets + 1), id, slurmId, resources, wants, ref).0;
      created := jobManager.Create(slurmId, resources, wants, adhoc);
      if created.Value? {
        MirrorsGrown(jobManagerJobs, state.jobs, jobObjs, id, created.value);
        AdoptJob(created.value, after);
      } else {
        state := after;
      }
    }

    /** Moves the abstract state on to one whose heap has a new job object. */
    ghost method AdoptJob(j: JobMetadata, after: State)
      requires ObjectsMatch() && j !in jobObjs
      requires |after.jobHeap| == |state.jobHeap| + 1 && after.jobHeap[..|state.jobHeap|] == state.jobHeap
      requires JobMatches(j, after.jobHeap[|state.jobHeap|]) && after.adhocHeap == state.adhocHeap
      modifies this`state, this`jobObjs
      ensures ObjectsMatch() && jobObjs == old(jobObjs) + [j] && state == after
    {
      assert forall i :: 0 <= i < |state.jobHeap| ==> after.jobHeap[i] == state.jobHeap[i];
      jobObjs := jobObjs + [j];
      state := after;
    }

    /** register_job's critical section on the adhoc storage, whose outcome it ignores. */
    method ListClient(adhoc: AdhocStorageMetadata, job: JobMetadata, ghost a: AdhocRef, ghost j: JobRef)
      requires Valid() && a < |adhocObjs| && adhoc == adhocObjs[a] && j < |jobObjs| && job == jobObjs[j]
      modifies this`state, adhoc`client
      ensures Valid() && state == AddClient(old(state), a, j).0
    {
      var _ := adhoc.AddClientInfo(job);
      state := AddClient(state, a, j).0;
    }

    /** register_job's lookup of the adhoc storage the job requires, if it requires one. */
    method FindAdhoc(wants: Option<Wanted>) returns (adhoc: AdhocStorageMetadata?, ghost ref: Option<AdhocRef>, ec: ErrorCode)
      requires Valid()
      ensures ec == Success || ec == NoSuchEntity
      ensures ec == Success <==> wants.None? || wants.value.id in state.adhocs
      ensures ec == Success ==> ref == (if wants.Some? then Some(state.adhocs[wants.value.id]) else None)
      ensures match ref case None => adhoc == null case Some(r) => r < |adhocObjs| && adhoc == adhocObjs[r]
    {
      adhoc, ref, ec := null, None, Success;
      if wants.Some? {
        var found := adhocManager.Find(wants.value.id);
        if found.Value? {
          adhoc := found.value;
          ref := Some(state.adhocs[wants.value.id]);
        } else {
          ec := found.error;
        }
      }
    }

    method RegisterJob(slurmId: SlurmId, resources: Nodes, wants: Option<Wanted>) returns (r: Expected<JobId>)
      requires Valid()
      modifies this`state, this`jobObjs, jobManager, adhocObjs`client
      ensures Valid()
      ensures (state, r) == Registry.RegisterJob(old(state), slurmId, resources, wants)
    {
      hide ObjectsMatch, MapsMatch;
      var adhoc, ref, ec := FindAdhoc(wants);
      if ec != Success {
        r := Unexpected(ec);
      } else {
        var created := CreateJob(slurmId, resources, wants, adhoc, ref);
        if created.Unexpected? {
          r := Unexpected(created.error);
        } else {
          if adhoc != null {
            ListClient(adhoc, created.value, ref.value, |jobObjs| - 1);
          }
          r := Value(created.value.id);
        }
      }
    }

    method UpdateJob(id: JobId, resources: Nodes) returns (ec: ErrorCode)
      requires Valid()
      modifies this`state, jobObjs`resources
      ensures Valid()
      ensures (state, ec) == SetJobResources(old(state), id, resources)
      ensures ec == if id in old(state).jobs then Success else NoSuchEntity
      ensures ec == Success ==> state.jobs == old(state).jobs && state.jobHeap[state.jobs[id]].resources == resources
    {
      FoundJob(id);
      hide Mirrors, AdhocMatches;
      ec := jobManager.Update(id, resources);
      state := SetJobResources(state, id, resources).0;
      assert MapsMatch() && RefsOk(state);
      hide MapsMatch, RefsOk;
      assert ObjectsMatch();
    }

    /** remove_job's critical section on the job manager. */
    method EraseJob(id: JobId) returns (removed: Expected<JobMetadata>, ghost ref: Expected<JobRef>)
      requires Valid()
      modifies this`state, jobManager
      ensures Valid() && (state, ref) == Registry.EraseJob(old(state), id)
      ensures removed.Unexpected? <==> ref.Unexpected?
      ensures removed.Unexpected? ==> removed.error == ref.error
      ensures removed.Value? ==> ref.value < |jobObjs| && removed.value == jobObjs[ref.value]
    {
      ref := Registry.EraseJob(state, id).1;
      removed := jobManager.Remove(id);
      state := Registry.EraseJob(state, id).0;
    }

    /** remove_job's critical section on the adhoc storage. */
    method ClearClient(id: AdhocId) returns (ec: ErrorCode)
      requires Valid()
      modifies this`state, adhocObjs`client
      ensures Valid() && (state, ec) == Registry.ClearClient(old(state), id)
    {
      FoundAdhoc(id);
      hide Mirrors, JobMatches;
      ec := adhocManager.RemoveClientInfo(id);
      state := Registry.ClearClient(state, id).0;
      assert MapsMatch() && RefsOk(state);
      hide MapsMatch, RefsOk;
      assert ObjectsMatch();
    }

    method RemoveJob(id: JobId) returns (ec: ErrorCode)
      requires Valid()
      modifies this`state, jobManager, adhocObjs`client
      ensures Valid()
      ensures (state, ec) == Registry.RemoveJob(old(state), id)
    {
      var removed, ref := EraseJob(id);
      if removed.Unexpected? {
        return removed.error;
      }
      ec := Success;
      if removed.value.wants.Some? {
        ec := ClearClient(removed.value.wants.value.id);
      }
    }

    /** update_adhoc_storage's first critical section: how many nodes the storage has. */
    method CountNodes(id: AdhocId) returns (n: Option<nat>)
      requires Valid()
      ensures n == if id in state.adhocs then Some(|state.adhocHeap[state.adhocs[id]].resources|) else None
    {
      var found := adhocManager.Find(id);
      n := if found.Value? then Some(|found.value.resources|) else None;
    }

    /** Its second one, whose outcome it ignores. */
    method SetNodes(id: AdhocId, resources: Nodes)
      requires Valid()
      modifies this`state, adhocObjs`resources
      ensures Valid() && state == SetAdhocResources(old(state), id, resources).0
    {
      FoundAdhoc(id);
      hide Mirrors, JobMatches;
      var _ := adhocManager.Update(id, resources);
      state := SetAdhocResources(state, id, resources).0;
      assert MapsMatch() && RefsOk(state);
      hide MapsMatch, RefsOk;
      assert ObjectsMatch();
    }

    /** Its third one: the nodes that the call to the controller passes. */
    method NodesToSend(id: AdhocId) returns (nodes: Option<Nodes>)
      requires Valid()
      ensures nodes == if id in state.adhocs then Some(state.adhocHeap[state.adhocs[id]].resources) else None
    {
      var found := adhocManager.Find(id);
      nodes := if found.Value? then Some(found.value.resources) else None;
    }

    /** The handler when nothing interferes; `answer` is what comes of the attempt to reach the controller, if there is one. */
    method UpdateAdhocStorage(id: AdhocId, resources: Nodes, answer: Contacted) returns (sent: Option<Call>, r: Outcome)
      requires Valid()
      modifies this`state, adhocObjs`resources
      ensures Valid()
      ensures (state, sent, r) == UpdateAdhoc(old(state), id, resources, answer)
      ensures id in old(state).adhocs ==> state.adhocs == old(state).adhocs && state.adhocHeap[state.adhocs[id]].resources == resources
      ensures sent.Some? <==> id in old(state).adhocs && answer != NoEndpoint
      ensures sent.Some? ==>
                && sent.value.nodes == resources
                && (sent.value.resize == Resize.Expand <==>
                      |resources| > |old(state).adhocHeap[old(state).adhocs[id]].resources|)
      ensures forall ec :: r == Replied(ec) <==> id in old(state).adhocs && answer == Answered(ec)
    {
      hide ObjectsMatch, MapsMatch;
      var before := CountNodes(id);
      if before.None? {
        sent, r := None, Threw;
      } else {
        SetNodes(id, resources);
        var resize := if |resources| > before.value then Resize.Expand else Resize.Shrink;
        var nodes := NodesToSend(id);
        sent := if nodes.Some? && !answer.NoEndpoint? then Some(Call(resize, nodes.value)) else None;
        r := if nodes.Some? && answer.Answered? then Replied(answer.ec) else Threw;
      }
    }

    method RemoveAdhocStorage(id: AdhocId) returns (ec: ErrorCode)
      requires Valid()
      modifies this`state, adhocManager
      ensures Valid()
      ensures (state, ec) == EraseAdhoc(old(state), id)
    {
      ec := adhocManager.Remove(id);
      state := EraseAdhoc(state, id).0;
    }

    method Query(slurmId: SlurmId) returns (r: QueryOutcome)
      requires Valid()
      ensures match FindBySlurmId(state, slurmId)
              case Unexpected(ec) => r == Failed(ec)
              case Value(ref) =>
                var job := state.jobHeap[ref];
                if job.adhoc.None? then r == NullPointer
                else
                  && job.adhoc.value < |state.adhocHeap|
                  && r == QueryOutcome.Info(JobInfo(state.adhocHeap[job.adhoc.value].info.ctx.controller,
                                       state.adhocHeap[job.adhoc.value].info.uuid, |job.resources|))
    {
      var found := jobManager.FindBySlurmId(slurmId);
      if found.Unexpected? {
        r := Failed(found.error);
      } else {
        r := Failed(NoResources);
        if found.value.resources.Some? {
          if found.value.adhoc == null {
            r := NullPointer;
          } else {
            var ioProcs := found.value.IoProcs();
            r := QueryOutcome.Info(JobInfo(found.value.adhoc.info.ctx.controller, found.value.adhoc.info.uuid, ioProcs));
          }
        }
      }
    }
  }
}
