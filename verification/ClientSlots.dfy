/**
 The handlers served one after the other: the client slot of every registered adhoc storage names exactly the live
 job that requires it, exactly as long as no registration shares a storage that is in use.
 */
module ClientSlots {
  import opened Common
  import opened Registry
  import opened RegistryProtocol
  import opened RegistrySafety
  import opened RegistryTheorems

  datatype Rpc =
    | Register(slurmId: SlurmId, resources: Nodes, wants: Option<Wanted>)
    | Remove(job: JobId)
    | Resize(job: JobId, nodes: Nodes)
    | NewStorage(info: Info, nodes: Nodes)
    | ResizeStorage(adhoc: AdhocId, nodes: Nodes)
    | DropStorage(adhoc: AdhocId)

  function Serve(s: State, rpc: Rpc): (s': State)
    requires RefsOk(s)
    ensures RefsOk(s')
  {
    match rpc
    case Register(slurmId, resources, wants) => RegisterJob(s, slurmId, resources, wants).0
    case Remove(job) => RemoveJob(s, job).0
    case Resize(job, nodes) => SetJobResources(s, job, nodes).0
    case NewStorage(info, nodes) => RegisterAdhoc(s, info, nodes).0
    case ResizeStorage(adhoc, nodes) => SetAdhocResources(s, adhoc, nodes).0
    case DropStorage(adhoc) => EraseAdhoc(s, adhoc).0
  }

  function ServeAll(rpcs: seq<Rpc>): (s: State)
    ensures RefsOk(s)
  {
    if rpcs == [] then EMPTY else Serve(ServeAll(rpcs[..|rpcs| - 1]), rpcs[|rpcs| - 1])
  }

  /** The live job uses the object as its adhoc storage. */
  predicate Uses(s: State, job: JobRef, r: AdhocRef) {
    Live(s, job) && s.jobHeap[job].adhoc == Some(r)
  }

  /** The client of each registered storage is the live job that uses it, and there is none if no live job does. */
  ghost predicate SlotsExact(s: State)
    requires RefsOk(s)
  {
    forall id :: id in s.adhocs ==>
      && (forall job: JobRef :: s.adhocHeap[s.adhocs[id]].client == Some(job) <==> Uses(s, job, s.adhocs[id]))
  }

  /** A registration does not ask for a storage some live job already uses. */
  predicate Exclusive(s: State, rpc: Rpc)
    requires RefsOk(s)
  {
    rpc.Register? && rpc.wants.Some? && rpc.wants.value.id in s.adhocs ==>
      forall job :: 0 <= job < |s.jobHeap| ==> !Uses(s, job, s.adhocs[rpc.wants.value.id])
  }

  lemma RegisterKeepsState(s: State, slurmId: SlurmId, resources: Nodes, wants: Option<Wanted>)
    requires StateInv(s) && s.jobTickets < WORD
    ensures StateInv(RegisterJob(s, slurmId, resources, wants).0)
  {
    if wants.None? || wants.value.id in s.adhocs {
      var adhoc := if wants.Some? then Some(s.adhocs[wants.value.id]) else None;
      var s0 := s.(jobTickets := s.jobTickets + 1);
      var id := s.jobTickets;
      assert LinkOk(s0, wants, adhoc) && forall i :: 0 <= i < |s.jobHeap| ==> s.jobHeap[i].id != id;
      hide HeapInv, IndexSound, SlotsPointBack, Evolves;
      TicketKeeps(s, s0);
      hide LinkOk;
      InsertJobKeeps(s0, id, slurmId, resources, wants, adhoc);
      var (s1, _) := InsertJob(s0, id, slurmId, resources, wants, adhoc);
      if adhoc.Some? && s1.adhocHeap[adhoc.value].client.None? {
        SetAdhocKeeps(s1, adhoc.value, s1.adhocHeap[adhoc.value].(client := Some(|s.jobHeap|)));
      }
    }
  }

  lemma RemoveKeepsState(s: State, id: JobId)
    requires StateInv(s)
    ensures StateInv(RemoveJob(s, id).0)
  {
    hide IndexSound, SlotsPointBack, Evolves, JobHeapInv, AdhocHeapInv;
    EraseJobKeeps(s, id);
    var s1 := EraseJob(s, id).0;
    if id in s.jobs {
      var wants := s.jobHeap[s.jobs[id]].wants;
      if wants.Some? && wants.value.id in s1.adhocs {
        var r := s1.adhocs[wants.value.id];
        SetAdhocKeeps(s1, r, s1.adhocHeap[r].(client := None));
      }
    }
  }

  lemma ServeKeepsState(s: State, rpc: Rpc)
    requires StateInv(s) && Unwrapped(Serve(s, rpc)) && Unwrapped(s)
    ensures StateInv(Serve(s, rpc))
  {
    hide IndexSound, SlotsPointBack, JobHeapInv, AdhocHeapInv, Evolves, InsertJob, EraseJob, AddClient, ClearClient;
    match rpc
    case Register(slurmId, resources, wants) =>
      if wants.None? || wants.value.id in s.adhocs {
        RegistrationIsCounted(s, slurmId, resources, wants);
        RegisterKeepsState(s, slurmId, resources, wants);
      }
    case Remove(job) => RemoveKeepsState(s, job);
    case Resize(job, nodes) => SetJobResourcesKeeps(s, job, nodes);
    case NewStorage(info, nodes) => RegisterAdhocKeeps(s, info, nodes);
    case ResizeStorage(adhoc, nodes) => SetAdhocResourcesKeeps(s, adhoc, nodes);
    case DropStorage(adhoc) => EraseAdhocKeeps(s, adhoc);
  }

  lemma RegistrationIsCounted(s: State, slurmId: SlurmId, resources: Nodes, wants: Option<Wanted>)
    requires RefsOk(s) && (wants.None? || wants.value.id in s.adhocs)
    ensures RegisterJob(s, slurmId, resources, wants).0.jobTickets == s.jobTickets + 1
  {
  }

  /** What a registration that finds its storage does to the jobs and to the slots. */
  lemma RegisterShape(s: State, slurmId: SlurmId, resources: Nodes, wants: Option<Wanted>)
    requires HeapInv(s) && s.jobTickets < WORD && (wants.Some? ==> wants.value.id in s.adhocs)
    ensures var s', added := RegisterJob(s, slurmId, resources, wants).0, |s.jobHeap|;
            && s'.adhocs == s.adhocs && |s'.adhocHeap| == |s.adhocHeap|
            && (forall j: JobRef, r :: j != added ==> Uses(s', j, r) == Uses(s, j, r))
            && (forall r :: Uses(s', added, r) <==> wants.Some? && s.adhocs[wants.value.id] == r)
            && (forall r :: 0 <= r < |s.adhocHeap| ==>
                  s'.adhocHeap[r].client == (if wants.Some? && s.adhocs[wants.value.id] == r && s.adhocHeap[r].client.None?
                                             then Some(added) else s.adhocHeap[r].client))
  {
    var s', added := RegisterJob(s, slurmId, resources, wants).0, |s.jobHeap|;
    assert forall id :: id in s.jobs ==> s.jobHeap[s.jobs[id]].id == id;
    assert s.jobTickets !in s.jobs;
    assert forall j :: 0 <= j < added ==> s'.jobHeap[j] == s.jobHeap[j];
    assert s'.jobHeap[added].id == s.jobTickets;
  }

  /**
   The single place where sharing breaks the slots: registering a job keeps them exact exactly when the storage it
   asks for is not in use.
   */
  lemma RegisterKeepsSlotsExactly(s: State, slurmId: SlurmId, resources: Nodes, wants: Option<Wanted>)
    requires StateInv(s) && SlotsExact(s) && s.jobTickets < WORD
    ensures SlotsExact(Serve(s, Register(slurmId, resources, wants))) <==> Exclusive(s, Register(slurmId, resources, wants))
  {
    if wants.None? || wants.value.id in s.adhocs {
      hide RegisterJob, HeapInv, SlotsPointBack, IndexSound, Live, Uses;
      assert HeapInv(s);
      RegisterShape(s, slurmId, resources, wants);
      var s', added := Serve(s, Register(slurmId, resources, wants)), |s.jobHeap|;
      assert forall r :: !Uses(s, added, r) by { UsersAreInTheHeap(s); }
      if wants.Some? {
        var r := s.adhocs[wants.value.id];
        assert Uses(s', added, r);
        IdsLeadApart(s);
        UsersAreInTheHeap(s);
        if s.adhocHeap[r].client.Some? {
          assert Uses(s, s.adhocHeap[r].client.value, r);
          assert s'.adhocHeap[r].client != Some(added);
        } else {
          assert forall j: JobRef :: !Uses(s, j, r);
        }
      }
    }
  }

  lemma UsersAreInTheHeap(s: State)
    ensures forall j: JobRef, r :: Uses(s, j, r) ==> j < |s.jobHeap|
  {
  }

  lemma IdsLeadApart(s: State)
    requires HeapInv(s)
    ensures forall a, a' :: a in s.adhocs && a' in s.adhocs && s.adhocs[a] == s.adhocs[a'] ==> a == a'
  {
  }

  /** What a removal does to the jobs and to the slots. */
  lemma RemoveShape(s: State, id: JobId)
    requires HeapInv(s) && id in s.jobs
    ensures var s', gone := RemoveJob(s, id).0, s.jobs[id];
            && s'.adhocs == s.adhocs && |s'.adhocHeap| == |s.adhocHeap|
            && (forall j: JobRef, r :: Uses(s', j, r) <==> Uses(s, j, r) && j != gone)
            && (forall a :: a in s.adhocs ==>
                  s'.adhocHeap[s.adhocs[a]].client == if Uses(s, gone, s.adhocs[a]) then None else s.adhocHeap[s.adhocs[a]].client)
  {
    var s', gone := RemoveJob(s, id).0, s.jobs[id];
    assert s.jobHeap[gone].id == id && LinkOk(s, s.jobHeap[gone].wants, s.jobHeap[gone].adhoc);
    assert s'.jobHeap == s.jobHeap && s'.jobs == s.jobs - {id};
    forall a | a in s.adhocs
      ensures Uses(s, gone, s.adhocs[a]) <==> s.jobHeap[gone].wants.Some? && s.jobHeap[gone].wants.value.id == a
    {
      assert s.adhocHeap[s.adhocs[a]].id == a;
    }
    IdsLeadApart(s);
  }

  /** With exact slots no storage has two users, so removing a job frees its storage and nothing else. */
  lemma RemoveKeepsSlots(s: State, id: JobId)
    requires StateInv(s) && SlotsExact(s)
    ensures SlotsExact(RemoveJob(s, id).0)
  {
    if id in s.jobs {
      RemoveShape(s, id);
      hide RemoveJob, HeapInv, SlotsPointBack, IndexSound, Live, Uses;
      var s', gone := RemoveJob(s, id).0, s.jobs[id];
      forall a, j: JobRef | a in s'.adhocs
        ensures s'.adhocHeap[s'.adhocs[a]].client == Some(j) <==> Uses(s', j, s'.adhocs[a])
      {
        assert s.adhocHeap[s.adhocs[a]].client == Some(j) <==> Uses(s, j, s.adhocs[a]);
        assert s.adhocHeap[s.adhocs[a]].client == Some(gone) <==> Uses(s, gone, s.adhocs[a]);
      }
    }
  }

  lemma UsersAreLinked(s: State)
    requires HeapInv(s)
    ensures forall j: JobRef, r: AdhocRef :: Uses(s, j, r) ==> r < |s.adhocHeap|
  {
    forall j: JobRef, r: AdhocRef | Uses(s, j, r)
      ensures r < |s.adhocHeap|
    {
      assert LinkOk(s, s.jobHeap[j].wants, s.jobHeap[j].adhoc);
    }
  }

  lemma OtherRpcsKeepUsers(s: State, rpc: Rpc)
    requires RefsOk(s) && !rpc.Register? && !rpc.Remove?
    ensures forall j: JobRef, r :: Uses(Serve(s, rpc), j, r) == Uses(s, j, r)
  {
    var s' := Serve(s, rpc);
    assert s'.jobs == s.jobs && |s'.jobHeap| == |s.jobHeap|;
    assert forall j :: 0 <= j < |s.jobHeap| ==> s'.jobHeap[j].id == s.jobHeap[j].id && s'.jobHeap[j].adhoc == s.jobHeap[j].adhoc;
  }

  /** The slots are as before, and that of a new storage is empty. */
  lemma OtherRpcsKeepClients(s: State, rpc: Rpc)
    requires RefsOk(s) && !rpc.Register? && !rpc.Remove?
    ensures var s' := Serve(s, rpc);
            forall id :: id in s'.adhocs ==>
              if s'.adhocs[id] == |s.adhocHeap| then s'.adhocHeap[s'.adhocs[id]].client.None?
              else id in s.adhocs && s'.adhocs[id] == s.adhocs[id] && s'.adhocHeap[s'.adhocs[id]].client == s.adhocHeap[s.adhocs[id]].client
  {
  }

  lemma OtherRpcsKeepSlots(s: State, rpc: Rpc)
    requires StateInv(s) && SlotsExact(s) && !rpc.Register? && !rpc.Remove?
    ensures SlotsExact(Serve(s, rpc))
  {
    UsersAreLinked(s);
    OtherRpcsKeepUsers(s, rpc);
    OtherRpcsKeepClients(s, rpc);
    hide Serve, Uses, JobHeapInv, AdhocHeapInv, IndexSound, SlotsPointBack;
  }

  /** Every registration of the run is exclusive when it is served. */
  ghost predicate ExclusiveRun(rpcs: seq<Rpc>) {
    rpcs == [] ||
    (var last := |rpcs| - 1; ExclusiveRun(rpcs[..last]) && Exclusive(ServeAll(rpcs[..last]), rpcs[last]))
  }

  lemma ServeGrowsTickets(s: State, rpc: Rpc)
    requires RefsOk(s)
    ensures s.jobTickets <= Serve(s, rpc).jobTickets && s.adhocTickets <= Serve(s, rpc).adhocTickets
  {
  }

  /** In every exclusive run the client slot of each registered storage is exactly its live user, or empty if there is none. */
  lemma {:induction false} ExclusiveRunsKeepSlotsExact(rpcs: seq<Rpc>)
    requires ExclusiveRun(rpcs) && Unwrapped(ServeAll(rpcs))
    ensures StateInv(ServeAll(rpcs)) && SlotsExact(ServeAll(rpcs))
  {
    if rpcs != [] {
      hide Serve, StateInv, SlotsExact, Exclusive;
      var s, rpc := ServeAll(rpcs[..|rpcs| - 1]), rpcs[|rpcs| - 1];
      ServeGrowsTickets(s, rpc);
      ExclusiveRunsKeepSlotsExact(rpcs[..|rpcs| - 1]);
      ServeKeepsState(s, rpc);
      match rpc
      case Register(slurmId, resources, wants) => RegisterServed(s, slurmId, resources, wants);
      case Remove(job) => RemoveServed(s, job);
      case _ => OtherRpcsKeepSlots(s, rpc);
    }
  }

  lemma RegisterServed(s: State, slurmId: SlurmId, resources: Nodes, wants: Option<Wanted>)
    requires StateInv(s) && SlotsExact(s) && Exclusive(s, Register(slurmId, resources, wants))
    requires Unwrapped(Serve(s, Register(slurmId, resources, wants)))
    ensures SlotsExact(Serve(s, Register(slurmId, resources, wants)))
  {
    if wants.None? || wants.value.id in s.adhocs {
      RegisterKeepsSlotsExactly(s, slurmId, resources, wants);
    }
  }

  lemma RemoveServed(s: State, job: JobId)
    requires StateInv(s) && SlotsExact(s)
    ensures SlotsExact(Serve(s, Remove(job)))
  {
    RemoveKeepsSlots(s, job);
  }

  lemma SharedStorageStates() returns (s1: State, s2: State, s3: State, s: State)
    ensures s1 == Serve(EMPTY, NewStorage(INFO, []))
    ensures s2 == Serve(s1, Register(1, [], Some(Wanted(0, []))))
    ensures s3 == Serve(s2, Register(2, [], Some(Wanted(0, []))))
    ensures s == Serve(s3, Remove(1))
    ensures Unwrapped(s) && 0 in s.adhocs && Uses(s, 0, s.adhocs[0]) && s.adhocHeap[s.adhocs[0]].client == None
  {
    s1 := Serve(EMPTY, NewStorage(INFO, []));
    assert s1.adhocHeap == [Adhoc(0, INFO, [], None)];
    s2 := Serve(s1, Register(1, [], Some(Wanted(0, []))));
    assert s2.jobHeap == [Job(0, 1, [], Some(Wanted(0, [])), Some(0))];
    assert s2.adhocHeap == [Adhoc(0, INFO, [], Some(0))];
    s3 := Serve(s2, Register(2, [], Some(Wanted(0, []))));
    assert s3.adhocHeap == s2.adhocHeap;
    s := Serve(s3, Remove(1));
  }

  /** Sharing is what it takes: of two jobs on one storage, removing the second empties the slot of the first. */
  lemma SharedStorageLosesClient() returns (rpcs: seq<Rpc>)
    ensures var s := ServeAll(rpcs);
            Unwrapped(s) && 0 in s.adhocs && Uses(s, 0, s.adhocs[0]) && s.adhocHeap[s.adhocs[0]].client == None
  {
    var s1, s2, s3, s := SharedStorageStates();
    hide Serve, Uses;
    var r1 := [NewStorage(INFO, [])];
    var r2 := r1 + [Register(1, [], Some(Wanted(0, [])))];
    var r3 := r2 + [Register(2, [], Some(Wanted(0, [])))];
    rpcs := r3 + [Remove(1)];
    assert r1[..0] == [] && r2[..1] == r1 && r3[..2] == r2 && rpcs[..3] == r3;
    assert ServeAll(r1) == s1;
    assert ServeAll(r2) == s2;
    assert ServeAll(r3) == s3;
  }

  // ---------------------------------------------------------------------------------------------------------
  // The handlers interleaved
  // ---------------------------------------------------------------------------------------------------------

  /**
   With the handlers interleaved, after any polite run: if at most one live job uses a registered storage, its slot
   holds that job, or is empty, or holds a job whose removal is about to clear it.
   */
  lemma SlotIsTheUserOrEmpty(steps: seq<Step>, y: System, id: AdhocId)
    requires ReachedBy(steps, y) && PoliteRun(steps) && id in y.reg.adhocs
    ensures y.reg.adhocs[id] < |y.reg.adhocHeap|
    ensures var r := y.reg.adhocs[id];
            (forall j: JobRef, j': JobRef :: Uses(y.reg, j, r) && Uses(y.reg, j', r) ==> j == j') ==>
              match y.reg.adhocHeap[r].client
              case None => true
              case Some(job) => BeingRemoved(y, job) || forall j: JobRef :: Uses(y.reg, j, r) <==> j == job
  {
    RunsKeepInv(steps, y);
    if y.reg.adhocHeap[y.reg.adhocs[id]].client.Some? {
      ClientIsLiveAndPointsBack(steps, y, id);
      var job := y.reg.adhocHeap[y.reg.adhocs[id]].client.value;
      assert BeingRemoved(y, job) || Uses(y.reg, job, y.reg.adhocs[id]);
      hide *;
    }
  }
}
