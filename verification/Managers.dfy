/** The metadata objects of jobs and adhoc storages, and the two managers that hold them. */
module Managers {
  import opened Common
  import opened Registry

  class JobMetadata {
    const id: JobId
    const slurmId: SlurmId
    /** Empty only in the type: every job is created with resources. */
    var resources: Option<Nodes>
    const wants: Option<Wanted>
    const adhoc: AdhocStorageMetadata?

    constructor (id: JobId, slurmId: SlurmId, resources: Nodes, wants: Option<Wanted>, adhoc: AdhocStorageMetadata?)
      ensures this.id == id && this.slurmId == slurmId && this.resources == Some(resources)
      ensures this.wants == wants && this.adhoc == adhoc
    {
      this.id, this.slurmId, this.resources, this.wants, this.adhoc := id, slurmId, Some(resources), wants, adhoc;
    }

    method Update(resources: Nodes)
      modifies this`resources
      ensures this.resources == Some(resources)
    {
      this.resources := Some(resources);
    }

    method IoProcs() returns (n: nat)
      ensures n == match resources case Some(nodes) => |nodes| case None => 0
    {
      if resources.Some? {
        return |resources.value|;
      }
      return 0;
    }
  }

  class AdhocStorageMetadata {
    const id: AdhocId
    const info: Info
    var resources: Nodes
    var client: JobMetadata?

    constructor (id: AdhocId, info: Info, resources: Nodes)
      ensures this.id == id && this.info == info && this.resources == resources && client == null
    {
      this.id, this.info, this.resources := id, info, resources;
      client := null;
    }

    method Update(resources: Nodes)
      modifies this`resources
      ensures this.resources == resources
    {
      this.resources := resources;
    }

    method AddClientInfo(job: JobMetadata) returns (ec: ErrorCode)
      modifies this`client
      ensures ec == if old(client) != null then AdhocInUse else Success
      ensures client == if old(client) != null then old(client) else job
    {
      if client != null {
        return AdhocInUse;
      }
      client := job;
      return Success;
    }

    method RemoveClientInfo()
      modifies this`client
      ensures client == null
    {
      client := null;
    }
  }

  class JobManager {
    var tickets: nat
    var jobs: map<JobId, JobMetadata>
    var slurmToScord: map<SlurmId, JobId>

    constructor ()
      ensures tickets == 0 && jobs == map[] && slurmToScord == map[]
    {
      tickets, jobs, slurmToScord := 0, map[], map[];
    }

    method Create(slurmId: SlurmId, resources: Nodes, wants: Option<Wanted>, adhoc: AdhocStorageMetadata?)
      returns (r: Expected<JobMetadata>)
      modifies this
      ensures tickets == old(tickets) + 1
      ensures IdOf(old(tickets)) in old(jobs) ==>
                r == Unexpected(EntityExists) && jobs == old(jobs) && slurmToScord == old(slurmToScord)
      ensures IdOf(old(tickets)) !in old(jobs) ==>
                && r.Value? && fresh(r.value) && jobs == old(jobs)[IdOf(old(tickets)) := r.value]
                && r.value.id == IdOf(old(tickets)) && r.value.slurmId == slurmId && r.value.resources == Some(resources)
                && r.value.wants == wants && r.value.adhoc == adhoc
                && slurmToScord == (if slurmId in old(slurmToScord) then old(slurmToScord)
                                    else old(slurmToScord)[slurmId := IdOf(old(tickets))])
    {
      var id := IdOf(tickets);
      tickets := tickets + 1;
      if id !in jobs {
        var job := new JobMetadata(id, slurmId, resources, wants, adhoc);
        jobs := jobs[id := job];
        if slurmId !in slurmToScord {
          slurmToScord := slurmToScord[slurmId := id];
        }
        return Value(job);
      }
      return Unexpected(EntityExists);
    }

    method Update(id: JobId, resources: Nodes) returns (ec: ErrorCode)
      modifies (if id in jobs then {jobs[id]} else {})`resources
      ensures ec == if id in jobs then Success else NoSuchEntity
      ensures id in jobs ==> jobs[id].resources == Some(resources)
    {
      if id in jobs {
        jobs[id].Update(resources);
        return Success;
      }
      return NoSuchEntity;
    }

    method Find(id: JobId) returns (r: Expected<JobMetadata>)
      ensures r == if id in jobs then Value(jobs[id]) else Unexpected(NoSuchEntity)
    {
      if id in jobs {
        return Value(jobs[id]);
      }
      return Unexpected(NoSuchEntity);
    }

    method FindBySlurmId(slurmId: SlurmId) returns (r: Expected<JobMetadata>)
      ensures r == if slurmId in slurmToScord && slurmToScord[slurmId] in jobs then Value(jobs[slurmToScord[slurmId]])
                   else Unexpected(NoSuchEntity)
    {
      if slurmId in slurmToScord {
        r := Find(slurmToScord[slurmId]);
        return;
      }
      return Unexpected(NoSuchEntity);
    }

    method Remove(id: JobId) returns (r: Expected<JobMetadata>)
      modifies this`jobs, this`slurmToScord
      ensures r == if id in old(jobs) then Value(old(jobs)[id]) else Unexpected(NoSuchEntity)
      ensures jobs == old(jobs) - {id}
      ensures slurmToScord == if id in old(jobs) then old(slurmToScord) - {old(jobs)[id].slurmId} else old(slurmToScord)
    {
      if id in jobs {
        var job := jobs[id];
        jobs := jobs - {id};
        slurmToScord := slurmToScord - {job.slurmId};
        return Value(job);
      }
      return Unexpected(NoSuchEntity);
    }
  }

  class AdhocStorageManager {
    var tickets: nat
    var adhocStorages: map<AdhocId, AdhocStorageMetadata>

    constructor ()
      ensures tickets == 0 && adhocStorages == map[]
    {
      tickets, adhocStorages := 0, map[];
    }

    /** The uuid that `create` generates at random is part of `info`. */
    method Create(info: Info, resources: Nodes) returns (r: Expected<AdhocStorageMetadata>)
      modifies this
      ensures tickets == old(tickets) + 1
      ensures IdOf(old(tickets)) in old(adhocStorages) ==>
                r == Unexpected(EntityExists) && adhocStorages == old(adhocStorages)
      ensures IdOf(old(tickets)) !in old(adhocStorages) ==>
                && r.Value? && fresh(r.value) && adhocStorages == old(adhocStorages)[IdOf(old(tickets)) := r.value]
                && r.value.id == IdOf(old(tickets)) && r.value.info == info
                && r.value.resources == resources && r.value.client == null
    {
      var id := IdOf(tickets);
      tickets := tickets + 1;
      if id !in adhocStorages {
        var adhoc := new AdhocStorageMetadata(id, info, resources);
        adhocStorages := adhocStorages[id := adhoc];
        return Value(adhoc);
      }
      return Unexpected(EntityExists);
    }

    method Update(id: AdhocId, resources: Nodes) returns (ec: ErrorCode)
      modifies (if id in adhocStorages then {adhocStorages[id]} else {})`resources
      ensures ec == if id in adhocStorages then Success else NoSuchEntity
      ensures id in adhocStorages ==> adhocStorages[id].resources == resources
    {
      if id in adhocStorages {
        adhocStorages[id].Update(resources);
        return Success;
      }
      return NoSuchEntity;
    }

    method Find(id: AdhocId) returns (r: Expected<AdhocStorageMetadata>)
      ensures r == if id in adhocStorages then Value(adhocStorages[id]) else Unexpected(NoSuchEntity)
    {
      if id in adhocStorages {
        return Value(adhocStorages[id]);
      }
      return Unexpected(NoSuchEntity);
    }

    method Remove(id: AdhocId) returns (ec: ErrorCode)
      modifies this`adhocStorages
      ensures ec == if id in old(adhocStorages) then Success else NoSuchEntity
      ensures adhocStorages == old(adhocStorages) - {id}
    {
      if id in adhocStorages {
        adhocStorages := adhocStorages - {id};
        return Success;
      }
      return NoSuchEntity;
    }

    method AddClientInfo(id: AdhocId, job: JobMetadata) returns (ec: ErrorCode)
      modifies (if id in adhocStorages then {adhocStorages[id]} else {})`client
      ensures id !in adhocStorages ==> ec == NoSuchEntity
      ensures id in adhocStorages ==>
                && ec == (if old(adhocStorages[id].client) != null then AdhocInUse else Success)
                && adhocStorages[id].client == (if old(adhocStorages[id].client) != null then old(adhocStorages[id].client) else job)
    {
      var found := Find(id);
      if found.Value? {
        ec := found.value.AddClientInfo(job);
        return;
      }
      return NoSuchEntity;
    }

    method RemoveClientInfo(id: AdhocId) returns (ec: ErrorCode)
      modifies (if id in adhocStorages then {adhocStorages[id]} else {})`client
      ensures ec == if id in adhocStorages then Success else NoSuchEntity
      ensures id in adhocStorages ==> adhocStorages[id].client == null
    {
      var found := Find(id);
      if found.Value? {
        found.value.RemoveClientInfo();
        return Success;
      }
      return NoSuchEntity;
    }
  }
}
