/**
 What each handler does to the jobs and storages that can be looked up, and what it replies, in plain terms. An
 identifier that is not mentioned leads to the object it led to before.
 */
module RegistryMeaning {
  import opened Common
  import opened Registry
  import opened RegistryProtocol

  /** The job registered under the identifier. */
  function JobAt(s: State, id: JobId): Option<Job>
    requires RefsOk(s)
  {
    if id in s.jobs then Some(s.jobHeap[s.jobs[id]]) else None
  }

  /** The storage registered under the identifier. */
  function StorageAt(s: State, id: AdhocId): Option<Adhoc>
    requires RefsOk(s)
  {
    if id in s.adhocs then Some(s.adhocHeap[s.adhocs[id]]) else None
  }

  /** All jobs but `id` are as they were. */
  ghost predicate OtherJobsKept(s: State, s': State, id: JobId)
    requires RefsOk(s) && RefsOk(s')
  {
    forall j: JobId :: j != id ==> JobAt(s', j) == JobAt(s, j)
  }

  ghost predicate OtherStoragesKept(s: State, s': State, id: AdhocId)
    requires RefsOk(s) && RefsOk(s')
  {
    forall a: AdhocId :: a != id ==> StorageAt(s', a) == StorageAt(s, a)
  }

  ghost predicate JobsKept(s: State, s': State)
    requires RefsOk(s) && RefsOk(s')
  {
    (forall j: JobId :: JobAt(s', j) == JobAt(s, j)) && s'.bySlurm == s.bySlurm
  }

  ghost predicate StoragesKept(s: State, s': State)
    requires RefsOk(s) && RefsOk(s')
  {
    forall a: AdhocId :: StorageAt(s', a) == StorageAt(s, a)
  }

  /** register_job turns down an unknown storage. */
  lemma RegisterJobRefuses(s: State, slurmId: SlurmId, resources: Nodes, wants: Option<Wanted>)
    requires RefsOk(s) && wants.Some? && StorageAt(s, wants.value.id).None?
    ensures RegisterJob(s, slurmId, resources, wants) == (s, Unexpected(NoSuchEntity))
  {
  }

  /** Otherwise it stores the job exactly as it was given, under an identifier that led nowhere. */
  lemma RegisterJobStores(s: State, slurmId: SlurmId, resources: Nodes, wants: Option<Wanted>)
    requires HeapInv(s) && s.jobTickets < WORD && (wants.Some? ==> StorageAt(s, wants.value.id).Some?)
    ensures var (s', reply) := RegisterJob(s, slurmId, resources, wants);
            var id := s.jobTickets;
            && RefsOk(s') && reply == Value(id) && JobAt(s, id).None? && OtherJobsKept(s, s', id)
            && JobAt(s', id).Some? && s'.jobs[id] == |s.jobHeap|
            && (var job := JobAt(s', id).value;
                && job.id == id && job.slurmId == slurmId && job.resources == resources && job.wants == wants
                && (job.adhoc.Some? <==> wants.Some?) && (wants.Some? ==> job.adhoc == Some(s.adhocs[wants.value.id])))
            && (forall k :: k in s'.bySlurm <==> k in s.bySlurm || k == slurmId)
            && (forall k :: k in s.bySlurm ==> s'.bySlurm[k] == s.bySlurm[k])
            && (slurmId !in s.bySlurm ==> s'.bySlurm[slurmId] == id)
  {
    NextJobIdIsFree(s);
    hide HeapInv, JobHeapInv, AdhocHeapInv;
  }

  lemma NextJobIdIsFree(s: State)
    requires HeapInv(s)
    ensures s.jobTickets !in s.jobs
  {
    assert forall id :: id in s.jobs ==> s.jobHeap[s.jobs[id]].id == id;
  }

  /** And it makes the job the client of its storage if that had none, and touches no other storage. */
  lemma RegisterJobFillsSlot(s: State, slurmId: SlurmId, resources: Nodes, wants: Option<Wanted>)
    requires HeapInv(s) && s.jobTickets < WORD && (wants.Some? ==> StorageAt(s, wants.value.id).Some?)
    ensures var s' := RegisterJob(s, slurmId, resources, wants).0;
            if wants.None? then RefsOk(s') && StoragesKept(s, s')
            else
              var a := wants.value.id;
              && RefsOk(s') && OtherStoragesKept(s, s', a) && StorageAt(s', a).Some?
              && (var storage, storage' := StorageAt(s, a).value, StorageAt(s', a).value;
                  && storage'.id == storage.id && storage'.info == storage.info && storage'.resources == storage.resources
                  && storage'.client == if storage.client.None? then Some(|s.jobHeap|) else storage.client)
  {
    NextJobIdIsFree(s);
    StoragesApart(s);
    hide HeapInv, JobHeapInv, AdhocHeapInv;
  }

  lemma StoragesApart(s: State)
    requires HeapInv(s)
    ensures forall a, b :: a in s.adhocs && b in s.adhocs && a != b ==> s.adhocs[a] != s.adhocs[b]
  {
    assert forall id :: id in s.adhocs ==> s.adhocHeap[s.adhocs[id]].id == id;
  }

  /** remove_job takes the job away, its Slurm id out of the index, and whoever is its storage's client out of the slot. */
  lemma RemoveJobMeans(s: State, id: JobId)
    requires HeapInv(s)
    ensures var (s', ec) := RemoveJob(s, id);
            && RefsOk(s') && JobAt(s', id).None? && OtherJobsKept(s, s', id)
            && (JobAt(s, id).None? ==> ec == NoSuchEntity && s' == s)
            && (JobAt(s, id).Some? ==>
                  var job := JobAt(s, id).value;
                  && s'.bySlurm == s.bySlurm - {job.slurmId}
                  && (if job.wants.None? then StoragesKept(s, s') && ec == Success
                      else
                        var a := job.wants.value.id;
                        && OtherStoragesKept(s, s', a)
                        && (StorageAt(s, a).None? ==> StorageAt(s', a).None? && ec == NoSuchEntity)
                        && (StorageAt(s, a).Some? ==>
                              StorageAt(s', a) == Some(StorageAt(s, a).value.(client := None)) && ec == Success)))
  {
    StoragesApart(s);
    hide HeapInv, JobHeapInv, AdhocHeapInv;
  }

  /** update_job gives the job the new resources, and answers success, exactly if there is such a job. */
  lemma UpdateJobMeans(s: State, id: JobId, resources: Nodes)
    requires HeapInv(s)
    ensures var (s', ec) := SetJobResources(s, id, resources);
            && RefsOk(s') && OtherJobsKept(s, s', id) && StoragesKept(s, s') && s'.bySlurm == s.bySlurm
            && (JobAt(s, id).None? ==> JobAt(s', id).None? && ec == NoSuchEntity)
            && (JobAt(s, id).Some? ==> JobAt(s', id) == Some(JobAt(s, id).value.(resources := resources)) && ec == Success)
  {
    assert forall a, b :: a in s.jobs && b in s.jobs && a != b ==> s.jobs[a] != s.jobs[b] by {
      assert forall id :: id in s.jobs ==> s.jobHeap[s.jobs[id]].id == id;
    }
    hide HeapInv, JobHeapInv, AdhocHeapInv;
  }

  /** register_adhoc_storage stores the storage exactly as it was given, with no client, under an identifier that led nowhere. */
  lemma RegisterAdhocStores(s: State, info: Info, resources: Nodes)
    requires HeapInv(s) && s.adhocTickets < WORD
    ensures var (s', reply) := RegisterAdhoc(s, info, resources);
            var id := s.adhocTickets;
            && RefsOk(s') && reply == Value(id) && StorageAt(s, id).None? && OtherStoragesKept(s, s', id) && JobsKept(s, s')
            && StorageAt(s', id).Some?
            && (var storage := StorageAt(s', id).value;
                storage.id == id && storage.info == info && storage.resources == resources && storage.client.None?)
  {
    assert s.adhocTickets !in s.adhocs by {
      assert forall id :: id in s.adhocs ==> s.adhocHeap[s.adhocs[id]].id == id;
    }
    hide HeapInv, JobHeapInv, AdhocHeapInv;
  }

  /** remove_adhoc_storage takes the storage away, and answers success, exactly if it is there. */
  lemma RemoveAdhocMeans(s: State, id: AdhocId)
    requires RefsOk(s)
    ensures var (s', ec) := EraseAdhoc(s, id);
            && RefsOk(s') && StorageAt(s', id).None? && OtherStoragesKept(s, s', id) && JobsKept(s, s')
            && (ec == Success <==> StorageAt(s, id).Some?) && (ec == NoSuchEntity <==> StorageAt(s, id).None?)
  {
  }

  /**
   update_adhoc_storage, alone: a known storage gets the new nodes; unless it has no endpoint its controller is asked to
   expand it if they are more than before and to shrink it if not; and the handler replies what the controller
   answers, and with nothing if there is no answer.
   */
  lemma UpdateAdhocMeans(s: State, id: AdhocId, resources: Nodes, answer: Contacted)
    requires HeapInv(s)
    ensures var (s', sent, outcome) := UpdateAdhoc(s, id, resources, answer);
            && RefsOk(s') && OtherStoragesKept(s, s', id) && JobsKept(s, s')
            && (StorageAt(s, id).None? ==> StorageAt(s', id).None? && sent == None && outcome == Threw)
            && (StorageAt(s, id).Some? ==>
                  var before := StorageAt(s, id).value;
                  && StorageAt(s', id) == Some(before.(resources := resources))
                  && (sent.None? <==> answer == NoEndpoint)
                  && (sent.Some? ==> sent.value.nodes == resources)
                  && (sent.Some? ==> (sent.value.resize == Resize.Expand <==> |resources| > |before.resources|))
                  && (forall ec :: outcome == Replied(ec) <==> answer == Answered(ec))
                  && (outcome == Threw <==> answer == NoEndpoint || answer == CallFailed))
  {
    StoragesApart(s);
    hide HeapInv, JobHeapInv, AdhocHeapInv;
  }
}
