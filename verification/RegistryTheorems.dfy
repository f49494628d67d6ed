/** The main results about jobs and adhoc storages. */
module RegistryTheorems {
  import opened Common
  import opened Registry
  import opened RegistryProtocol
  import opened RegistrySafety
  import opened RegistryClients

  /** `y` is the state after a run in which no counter has wrapped around. */
  ghost predicate ReachedBy(steps: seq<Step>, y: System) {
    Exec(steps) == Some(y) && Unwrapped(y.reg)
  }

  lemma TicketsGrow(y: System, step: Step)
    requires Enabled(y, step)
    ensures y.reg.jobTickets <= Apply(y, step).reg.jobTickets && y.reg.adhocTickets <= Apply(y, step).reg.adhocTickets
  {
  }

  /** A run is a shorter run and one more step. */
  lemma LastStep(steps: seq<Step>) returns (y: System, step: Step)
    requires steps != [] && Exec(steps).Some?
    ensures Exec(steps[..|steps| - 1]) == Some(y) && step == steps[|steps| - 1]
    ensures Enabled(y, step) && Exec(steps) == Some(Apply(y, step))
    ensures Unwrapped(Exec(steps).value.reg) ==> Unwrapped(y.reg)
  {
    y, step := Exec(steps[..|steps| - 1]).value, steps[|steps| - 1];
    hide Enabled, Apply;
    TicketsGrow(y, step);
  }

  lemma {:induction false} RunsKeepInv(steps: seq<Step>, y: System)
    requires ReachedBy(steps, y)
    ensures Inv(y)
  {
    if steps != [] {
      hide Enabled, Apply, StateInv, ThreadsInv;
      var before, step := LastStep(steps);
      RunsKeepInv(steps[..|steps| - 1], before);
      StepAdvances(before, step);
    }
  }

  lemma {:induction false} PoliteRunsKeepClients(steps: seq<Step>, y: System)
    requires ReachedBy(steps, y) && PoliteRun(steps)
    ensures ClientsInv(y)
  {
    if steps != [] {
      hide Enabled, Apply, Inv, ClientsInv, Polite;
      var before, step := LastStep(steps);
      RunsKeepInv(steps[..|steps| - 1], before);
      PoliteRunsKeepClients(steps[..|steps| - 1], before);
      StepKeepsClients(before, step);
    }
  }

  // ---------------------------------------------------------------------------------------------------------
  // Identifiers
  // ---------------------------------------------------------------------------------------------------------

  /**
   In every interleaving of registrations, while the counter has not wrapped around, creating a job succeeds: its
   identifier was never used and no other registration holds it.
   */
  lemma CreateAlwaysSucceeds(steps: seq<Step>, y: System, t: ThreadId)
    requires ReachedBy(steps, y) && Enabled(y, Create(t))
    ensures var id := y.threads[t].id; var y' := Apply(y, Create(t));
            && id !in y.reg.jobs && (forall i :: 0 <= i < |y.reg.jobHeap| ==> y.reg.jobHeap[i].id != id)
            && y'.threads[t].Created? && y'.reg.jobs == y.reg.jobs[id := |y.reg.jobHeap|]
            && (forall u :: u in y.threads && u != t && y.threads[u].Ticketed? ==> y.threads[u].id != id)
  {
    RunsKeepInv(steps, y);
    hide StateInv, Advances;
    ClaimIsUnused(y, t);
    hide ThreadsInv;
    CreateAdvances(y, t);
  }

  /** What a thread holds is in no heap and with no other thread. */
  lemma ClaimIsUnused(y: System, t: ThreadId)
    requires ThreadsInv(y) && t in y.threads
    ensures y.threads[t].Ticketed? ==>
              && (forall i :: 0 <= i < |y.reg.jobHeap| ==> y.reg.jobHeap[i].id != y.threads[t].id)
              && (forall u :: u in y.threads && u != t && y.threads[u].Ticketed? ==> y.threads[u].id != y.threads[t].id)
    ensures y.threads[t].AdhocTicketed? ==>
              && (forall i :: 0 <= i < |y.reg.adhocHeap| ==> y.reg.adhocHeap[i].id != y.threads[t].adhocId)
              && (forall u :: u in y.threads && u != t && y.threads[u].AdhocTicketed? ==> y.threads[u].adhocId != y.threads[t].adhocId)
  {
    assert ThreadInv(y.reg, y.threads[t]);
    forall u | u in y.threads && u != t
      ensures Apart(y.threads[t], y.threads[u])
    {
    }
  }

  lemma CreateAdhocShape(y: System, t: ThreadId)
    requires Enabled(y, CreateAdhoc(t)) && y.threads[t].adhocId !in y.reg.adhocs
    ensures var id := y.threads[t].adhocId; var y' := Apply(y, CreateAdhoc(t));
            y'.threads == y.threads[t := AdhocRegistered(Value(id))] && y'.reg.adhocs == y.reg.adhocs[id := |y.reg.adhocHeap|]
  {
  }

  /** The same for the identifiers of adhoc storages. */
  lemma CreateAdhocAlwaysSucceeds(steps: seq<Step>, y: System, t: ThreadId)
    requires ReachedBy(steps, y) && Enabled(y, CreateAdhoc(t))
    ensures var id := y.threads[t].adhocId; var y' := Apply(y, CreateAdhoc(t));
            && id !in y.reg.adhocs && (forall i :: 0 <= i < |y.reg.adhocHeap| ==> y.reg.adhocHeap[i].id != id)
            && y'.threads[t] == AdhocRegistered(Value(id)) && y'.reg.adhocs == y.reg.adhocs[id := |y.reg.adhocHeap|]
            && (forall u :: u in y.threads && u != t && y.threads[u].AdhocTicketed? ==> y.threads[u].adhocId != id)
  {
    RunsKeepInv(steps, y);
    hide StateInv, Advances;
    ClaimIsUnused(y, t);
    hide ThreadsInv;
    CreateAdhocAdvances(y, t);
    CreateAdhocShape(y, t);
    hide Apply, Enabled;
  }

  // ---------------------------------------------------------------------------------------------------------
  // Client slots
  // ---------------------------------------------------------------------------------------------------------

  /**
   After any polite run, the client of a registered adhoc storage is a job whose adhoc pointer is that very object,
   and it is live, or its remove_job has erased it and is about to clear the slot.
   */
  lemma ClientIsLiveAndPointsBack(steps: seq<Step>, y: System, id: AdhocId)
    requires ReachedBy(steps, y) && PoliteRun(steps)
    requires id in y.reg.adhocs && y.reg.adhocs[id] < |y.reg.adhocHeap| && y.reg.adhocHeap[y.reg.adhocs[id]].client.Some?
    ensures var job := y.reg.adhocHeap[y.reg.adhocs[id]].client.value;
            && job < |y.reg.jobHeap| && y.reg.jobHeap[job].adhoc == Some(y.reg.adhocs[id])
            && (Live(y.reg, job) || BeingRemoved(y, job))
  {
    RunsKeepInv(steps, y);
    PoliteRunsKeepClients(steps, y);
  }

  /** A client is never displaced: a slot is filled only by a registration that finds it empty, and emptied only by a removal. */
  lemma NeverDisplaced(y: System, step: Step, r: AdhocRef)
    requires Enabled(y, step) && r < |y.reg.adhocHeap|
    ensures var y' := Apply(y, step);
            && |y.reg.adhocHeap| <= |y'.reg.adhocHeap|
            && (y'.reg.adhocHeap[r].client == y.reg.adhocHeap[r].client
                || (y.reg.adhocHeap[r].client.None? && step.Enlist? && y'.reg.adhocHeap[r].client == Some(y.threads[step.t].job))
                || (y'.reg.adhocHeap[r].client.None? && step.Unlist?))
  {
  }

  /** Without politeness the registration's last section is what breaks the slots, exactly when it lists a dead job. */
  lemma EnlistKeepsSlotsExactly(y: System, t: ThreadId)
    requires Inv(y) && SlotsLive(y) && Enabled(y, Enlist(t))
    ensures var Created(adhoc, job) := y.threads[t];
            SlotsLive(Apply(y, Enlist(t))) <==>
              (|| Live(y.reg, job) || BeingRemoved(y, job)
               || adhoc.None? || y.reg.adhocHeap[adhoc.value].client.Some?
               || y.reg.adhocHeap[adhoc.value].id !in y.reg.adhocs)
  {
    var y' := Apply(y, Enlist(t));
    var Created(adhoc, job) := y.threads[t];
    assert ThreadInv(y.reg, y.threads[t]);
    assert forall j :: Live(y'.reg, j) == Live(y.reg, j);
    forall j | j != job
      ensures BeingRemoved(y, j) ==> BeingRemoved(y', j)
    {
      if BeingRemoved(y, j) {
        var u :| u in y.threads && y.threads[u] == Erased(j);
        assert y'.threads[u] == Erased(j);
      }
    }
    assert BeingRemoved(y, job) <==> BeingRemoved(y', job) by {
      if BeingRemoved(y, job) {
        var u :| u in y.threads && y.threads[u] == Erased(job);
        assert y'.threads[u] == Erased(job);
      }
      if BeingRemoved(y', job) {
        var u :| u in y'.threads && y'.threads[u] == Erased(job);
        assert u != t;
      }
    }
    if adhoc.Some? && y.reg.adhocHeap[adhoc.value].client.None? && y.reg.adhocHeap[adhoc.value].id in y.reg.adhocs {
      var id := y.reg.adhocHeap[adhoc.value].id;
      assert y.reg.adhocs[id] == adhoc.value;
      assert y'.reg.adhocHeap[y'.reg.adhocs[id]].client == Some(job);
    }
  }

  // ---------------------------------------------------------------------------------------------------------
  // The handlers without interference
  // ---------------------------------------------------------------------------------------------------------

  /** The critical sections of register_job, one after the other on a fresh thread. */
  function RegisterAlone(y: System, t: ThreadId, slurmId: SlurmId, resources: Nodes, wants: Option<Wanted>): System
    requires RefsOk(y.reg) && t !in y.threads
  {
    var y1 := Apply(y, StartRegister(t, slurmId, resources, wants));
    var y2 := Apply(y1, FindAdhoc(t));
    if !Enabled(y2, TakeTicket(t)) then y2
    else
      var y3 := Apply(y2, TakeTicket(t));
      var y4 := Apply(y3, Create(t));
      if Enabled(y4, Enlist(t)) then Apply(y4, Enlist(t)) else y4
  }

  lemma FindAlone(y: System, t: ThreadId, slurmId: SlurmId, resources: Nodes, wants: Option<Wanted>)
    requires RefsOk(y.reg) && t !in y.threads
    ensures var y2 := Apply(Apply(y, StartRegister(t, slurmId, resources, wants)), FindAdhoc(t));
            y2 == SetThread(y, t,
                    if wants.None? then AdhocFound(slurmId, resources, wants, None)
                    else if wants.value.id in y.reg.adhocs then
                      AdhocFound(slurmId, resources, wants, Some(y.reg.adhocs[wants.value.id]))
                    else Registered(Unexpected(NoSuchEntity)))
  {
    var y2 := Apply(Apply(y, StartRegister(t, slurmId, resources, wants)), FindAdhoc(t));
    assert y2.threads == y.threads[t := y2.threads[t]];
  }

  lemma CreateAlone(y: System, t: ThreadId, slurmId: SlurmId, resources: Nodes, wants: Option<Wanted>, adhoc: Option<AdhocRef>)
    requires RefsOk(y.reg) && (adhoc.Some? ==> adhoc.value < |y.reg.adhocHeap|)
    ensures var y2 := SetThread(y, t, AdhocFound(slurmId, resources, wants, adhoc));
            var y4 := Apply(Apply(y2, TakeTicket(t)), Create(t));
            var id := IdOf(y.reg.jobTickets);
            var (reg, created) := InsertJob(y.reg.(jobTickets := y.reg.jobTickets + 1), id, slurmId, resources, wants, adhoc);
            match created
            case Unexpected(ec) => y4 == System(reg, y.threads[t := Registered(Unexpected(ec))]) && !Enabled(y4, Enlist(t))
            case Value(ref) =>
              && y4 == System(reg, y.threads[t := Created(adhoc, ref)]) && Enabled(y4, Enlist(t))
              && Apply(y4, Enlist(t)) == System(if adhoc.Some? then AddClient(reg, adhoc.value, ref).0 else reg,
                                                y.threads[t := Registered(Value(id))])
  {
    var y2 := SetThread(y, t, AdhocFound(slurmId, resources, wants, adhoc));
    var y4 := Apply(Apply(y2, TakeTicket(t)), Create(t));
    assert y4.threads == y.threads[t := y4.threads[t]];
    if Enabled(y4, Enlist(t)) {
      var y5 := Apply(y4, Enlist(t));
      assert y5.threads == y.threads[t := y5.threads[t]];
    }
  }

  /** Alone, the sections amount to the handler as a whole, reply included. */
  lemma RegisterAloneIsRegisterJob(y: System, t: ThreadId, slurmId: SlurmId, resources: Nodes, wants: Option<Wanted>)
    requires RefsOk(y.reg) && t !in y.threads
    ensures var (reg, reply) := RegisterJob(y.reg, slurmId, resources, wants);
            RegisterAlone(y, t, slurmId, resources, wants) == System(reg, y.threads[t := Registered(reply)])
  {
    hide DoFindAdhoc, DoTakeTicket, DoCreate, DoEnlist, InsertJob, AddClient;
    FindAlone(y, t, slurmId, resources, wants);
    if wants.None? || wants.value.id in y.reg.adhocs {
      CreateAlone(y, t, slurmId, resources, wants, if wants.Some? then Some(y.reg.adhocs[wants.value.id]) else None);
    }
  }

  /** Likewise for register_adhoc_storage. */
  lemma RegisterAdhocAloneIsRegisterAdhoc(y: System, t: ThreadId, info: Info, resources: Nodes)
    requires RefsOk(y.reg) && t !in y.threads
    ensures var (reg, reply) := RegisterAdhoc(y.reg, info, resources);
            Apply(Apply(y, TakeAdhocTicket(t, info, resources)), CreateAdhoc(t)) == System(reg, y.threads[t := AdhocRegistered(reply)])
  {
    var y2 := Apply(Apply(y, TakeAdhocTicket(t, info, resources)), CreateAdhoc(t));
    assert y2.threads == y.threads[t := y2.threads[t]];
  }

  function RemoveAlone(y: System, t: ThreadId, id: JobId): System
    requires RefsOk(y.reg) && t !in y.threads
  {
    var y1 := Apply(y, Erase(t, id));
    if Enabled(y1, Unlist(t)) then Apply(y1, Unlist(t)) else y1
  }

  lemma RemoveAloneIsRemoveJob(y: System, t: ThreadId, id: JobId)
    requires RefsOk(y.reg) && t !in y.threads
    ensures var (reg, ec) := RemoveJob(y.reg, id);
            RemoveAlone(y, t, id) == System(reg, y.threads[t := Removed(ec)])
  {
    var y1 := Apply(y, Erase(t, id));
    if id in y.reg.jobs {
      assert Enabled(y1, Unlist(t));
      var y2 := Apply(y1, Unlist(t));
      assert y2.threads == y.threads[t := y2.threads[t]];
    } else {
      assert !Enabled(y1, Unlist(t));
    }
  }

  /** Alone, remove_job reports success exactly when the job was there and the storage it required, if any, still is. */
  lemma RemovalSucceedsExactly(s: State, id: JobId)
    requires RefsOk(s)
    ensures RemoveJob(s, id).1 == Success <==>
              id in s.jobs && (var wants := s.jobHeap[s.jobs[id]].wants; wants.None? || wants.value.id in s.adhocs)
    ensures id !in RemoveJob(s, id).0.jobs
  {
  }

  /** A job whose storage has been deregistered is removed, and yet the reply is that there is no such entity. */
  lemma RemovedButNotFound() returns (s: State)
    ensures var s1 := RegisterAdhoc(EMPTY, INFO, []).0;
            RefsOk(s1) && s == EraseAdhoc(RegisterJob(s1, 7, [], Some(Wanted(0, []))).0, 0).0
    ensures RefsOk(s) && 0 in s.jobs && RemoveJob(s, 0).1 == NoSuchEntity && RemoveJob(s, 0).0.jobs == map[]
  {
    var s1 := RegisterAdhoc(EMPTY, INFO, []).0;
    assert s1.adhocHeap == [Adhoc(0, INFO, [], None)];
    var s2 := RegisterJob(s1, 7, [], Some(Wanted(0, []))).0;
    assert s2.jobHeap == [Job(0, 7, [], Some(Wanted(0, [])), Some(0))] && s2.jobs == map[0 := 0];
    s := EraseAdhoc(s2, 0).0;
    assert s.adhocs == map[];
  }

  /** The guards that only say where a thread's data lives never hold a handler up. */
  lemma HandlersAreNotStuck(steps: seq<Step>, y: System, t: ThreadId)
    requires ReachedBy(steps, y) && t in y.threads
    ensures match y.threads[t]
            case Registering(_, _, _) => Enabled(y, FindAdhoc(t))
            case AdhocFound(_, _, _, _) => Enabled(y, TakeTicket(t))
            case Ticketed(_, _, _, _, _) => Enabled(y, Create(t))
            case Created(_, _) => Enabled(y, Enlist(t))
            case Erased(_) => Enabled(y, Unlist(t))
            case AdhocTicketed(_, _, _) => Enabled(y, CreateAdhoc(t))
            case Counted(_, _, _) => Enabled(y, SetNodes(t))
            case Resized(_, _) => forall answer :: Enabled(y, Contact(t, answer))
            case _ => true
  {
    RunsKeepInv(steps, y);
    assert ThreadInv(y.reg, y.threads[t]);
    if y.threads[t].Created? {
      var job := y.threads[t].job;
      assert LinkOk(y.reg, y.reg.jobHeap[job].wants, y.reg.jobHeap[job].adhoc);
    }
    hide Exec, JobHeapInv, AdhocHeapInv, ThreadsInv, IndexSound, SlotsPointBack;
  }

  /** Nor does a new request ever have to wait for anything but its thread. */
  lemma RequestsAreNotStuck(steps: seq<Step>, y: System, step: Step)
    requires ReachedBy(steps, y)
    requires step.StartRegister? || step.Erase? || step.TakeAdhocTicket? || step.CountNodes? ==> step.t !in y.threads
    requires step.StartRegister? || step.Erase? || step.TakeAdhocTicket? || step.CountNodes? || step.ResizeJob? || step.DropAdhoc?
    ensures Enabled(y, step)
  {
    RunsKeepInv(steps, y);
    hide Exec, JobHeapInv, AdhocHeapInv, ThreadsInv, IndexSound, SlotsPointBack;
  }

  lemma ExecOneMore(steps: seq<Step>, y: System, step: Step)
    requires Exec(steps) == Some(y)
    ensures Exec(steps + [step]) == if Enabled(y, step) then Some(Apply(y, step)) else None
  {
    assert (steps + [step])[..|steps|] == steps;
    hide Enabled, Apply;
  }

  const INFO := AdhocStorageTypes.EXAMPLE

  /** A registration that has created job 0, which wants adhoc storage 0, and not yet listed it. */
  const HALF_REGISTERED := System(
    State([Job(0, 0, [], Some(Wanted(0, [])), Some(0))], [Adhoc(0, INFO, [], None)], 1, 1,
          map[0 := 0], map[0 := 0], map[0 := 0]),
    map[0 := Created(Some(0), 0), 2 := AdhocRegistered(Value(0))])

  lemma StorageRegistered() returns (y0: System, y1: System)
    ensures Enabled(INITIAL, TakeAdhocTicket(2, INFO, [])) && y0 == Apply(INITIAL, TakeAdhocTicket(2, INFO, []))
    ensures Enabled(y0, CreateAdhoc(2)) && y1 == Apply(y0, CreateAdhoc(2))
    ensures y1 == System(State([], [Adhoc(0, INFO, [], None)], 0, 1, map[], map[], map[0 := 0]),
                         map[2 := AdhocRegistered(Value(0))])
  {
    y0 := Apply(INITIAL, TakeAdhocTicket(2, INFO, []));
    assert y0.threads[2] == AdhocTicketed(INFO, [], 0);
    y1 := Apply(y0, CreateAdhoc(2));
    assert y1.threads == map[2 := AdhocRegistered(Value(0))];
    assert y1.reg.adhocHeap == [Adhoc(0, INFO, [], None)];
  }

  lemma HalfRegistered() returns (y0: System, y1: System, y2: System, y3: System, y4: System)
    ensures Enabled(INITIAL, TakeAdhocTicket(2, INFO, [])) && y0 == Apply(INITIAL, TakeAdhocTicket(2, INFO, []))
    ensures Enabled(y0, CreateAdhoc(2)) && y1 == Apply(y0, CreateAdhoc(2))
    ensures Enabled(y1, StartRegister(0, 0, [], Some(Wanted(0, [])))) && y2 == Apply(y1, StartRegister(0, 0, [], Some(Wanted(0, []))))
    ensures Enabled(y2, FindAdhoc(0)) && y3 == Apply(y2, FindAdhoc(0))
    ensures Enabled(y3, TakeTicket(0)) && y4 == Apply(y3, TakeTicket(0))
    ensures Enabled(y4, Create(0)) && HALF_REGISTERED == Apply(y4, Create(0))
  {
    y0, y1 := StorageRegistered();
    y2 := Apply(y1, StartRegister(0, 0, [], Some(Wanted(0, []))));
    y3 := Apply(y2, FindAdhoc(0));
    y4 := Apply(y3, TakeTicket(0));
    var y5 := Apply(y4, Create(0));
    assert y5.reg.jobHeap == HALF_REGISTERED.reg.jobHeap;
    assert y5.reg.adhocHeap == HALF_REGISTERED.reg.adhocHeap;
    assert y5.reg.jobs == HALF_REGISTERED.reg.jobs;
    assert y5.reg.bySlurm == HALF_REGISTERED.reg.bySlurm;
    assert y5.reg.adhocs == HALF_REGISTERED.reg.adhocs;
    assert y5.threads == HALF_REGISTERED.threads;
  }

  lemma RudeStates() returns (y6: System, y7: System, y: System)
    ensures Enabled(HALF_REGISTERED, Erase(1, 0)) && y6 == Apply(HALF_REGISTERED, Erase(1, 0)) && !Polite(HALF_REGISTERED, Erase(1, 0))
    ensures Enabled(y6, Unlist(1)) && y7 == Apply(y6, Unlist(1))
    ensures Enabled(y7, Enlist(0)) && y == Apply(y7, Enlist(0))
    ensures Unwrapped(y.reg) && 0 in y.reg.adhocs && y.reg.adhocs[0] == 0 && |y.reg.adhocHeap| == 1
    ensures y.reg.adhocHeap[0].client == Some(0) && !Live(y.reg, 0) && !BeingRemoved(y, 0)
  {
    assert HALF_REGISTERED.threads[0] == Created(Some(0), 0);
    y6 := Apply(HALF_REGISTERED, Erase(1, 0));
    assert y6.threads[1] == Erased(0);
    y7 := Apply(y6, Unlist(1));
    y := Apply(y7, Enlist(0));
    assert y.threads == map[0 := Registered(Value(0)), 1 := Removed(Success), 2 := AdhocRegistered(Value(0))];
  }

  /** Politeness is needed: removed between creation and listing, a dead job holds the slot with no removal left to clear it. */
  lemma RudeRemovalLeavesDeadClient() returns (steps: seq<Step>, y: System)
    ensures ReachedBy(steps, y) && 0 in y.reg.adhocs && y.reg.adhocs[0] == 0 && |y.reg.adhocHeap| == 1
    ensures y.reg.adhocHeap[0].client == Some(0) && !Live(y.reg, 0) && !BeingRemoved(y, 0)
  {
    var y0, y1, y2, y3, y4 := HalfRegistered();
    var y6, y7, last := RudeStates();
    y := last;
    hide Enabled, Apply, Live, BeingRemoved, Unwrapped;
    steps := [];
    ExecOneMore(steps, INITIAL, TakeAdhocTicket(2, INFO, []));
    steps := steps + [TakeAdhocTicket(2, INFO, [])];
    ExecOneMore(steps, y0, CreateAdhoc(2));
    steps := steps + [CreateAdhoc(2)];
    ExecOneMore(steps, y1, StartRegister(0, 0, [], Some(Wanted(0, []))));
    steps := steps + [StartRegister(0, 0, [], Some(Wanted(0, [])))];
    ExecOneMore(steps, y2, FindAdhoc(0));
    steps := steps + [FindAdhoc(0)];
    ExecOneMore(steps, y3, TakeTicket(0));
    steps := steps + [TakeTicket(0)];
    ExecOneMore(steps, y4, Create(0));
    steps := steps + [Create(0)];
    ExecOneMore(steps, HALF_REGISTERED, Erase(1, 0));
    steps := steps + [Erase(1, 0)];
    ExecOneMore(steps, y6, Unlist(1));
    steps := steps + [Unlist(1)];
    ExecOneMore(steps, y7, Enlist(0));
    steps := steps + [Enlist(0)];
  }

  // ---------------------------------------------------------------------------------------------------------
  // What never changes
  // ---------------------------------------------------------------------------------------------------------

  lemma {:induction false} RunsEvolve(steps: seq<Step>, y: System, more: seq<Step>, y': System)
    requires ReachedBy(steps, y) && ReachedBy(steps + more, y')
    ensures Evolves(y.reg, y'.reg)
    decreases |more|
  {
    hide Enabled, Apply, Evolves, Inv;
    if more == [] {
      assert steps + more == steps;
      EvolvesReflexive(y.reg);
    } else {
      var before, step := LastStep(steps + more);
      var fewer := more[..|more| - 1];
      assert (steps + more)[..|steps + more| - 1] == steps + fewer;
      RunsEvolve(steps, y, fewer, before);
      RunsKeepInv(steps + fewer, before);
      StepAdvances(before, step);
      EvolvesTransitive(y.reg, before.reg, y'.reg);
    }
  }

  /**
   However the run goes on, and whether or not the adhoc storage stays registered, a job keeps its identity, its
   requirements and its adhoc object, and that object keeps its name, type, uuid and context, the addresses included.
   */
  lemma AddressesNeverChange(steps: seq<Step>, y: System, more: seq<Step>, y': System, job: JobRef)
    requires ReachedBy(steps, y) && ReachedBy(steps + more, y') && job < |y.reg.jobHeap|
    ensures job < |y'.reg.jobHeap|
    ensures var j, j' := y.reg.jobHeap[job], y'.reg.jobHeap[job];
            && j'.id == j.id && j'.slurmId == j.slurmId && j'.wants == j.wants && j'.adhoc == j.adhoc
            && (j.adhoc.Some? ==>
                  && j.adhoc.value < |y.reg.adhocHeap| && j.adhoc.value < |y'.reg.adhocHeap|
                  && y'.reg.adhocHeap[j.adhoc.value].info == y.reg.adhocHeap[j.adhoc.value].info)
  {
    RunsKeepInv(steps, y);
    RunsEvolve(steps, y, more, y');
    assert LinkOk(y.reg, y.reg.jobHeap[job].wants, y.reg.jobHeap[job].adhoc);
  }

  /** Resizing a registered storage is seen by exactly the jobs that require it, through their pointer; no job's own copy changes. */
  lemma ResizeIsSharedNotCopied(steps: seq<Step>, y: System, id: AdhocId, resources: Nodes, job: JobRef)
    requires ReachedBy(steps, y) && id in y.reg.adhocs && job < |y.reg.jobHeap| && y.reg.jobHeap[job].adhoc.Some?
    ensures var reg' := SetAdhocResources(y.reg, id, resources).0;
            var j := y.reg.jobHeap[job];
            && reg'.jobHeap == y.reg.jobHeap
            && j.wants.Some? && j.adhoc.value < |y.reg.adhocHeap| == |reg'.adhocHeap|
            && reg'.adhocHeap[j.adhoc.value].resources ==
               if j.wants.value.id == id then resources else y.reg.adhocHeap[j.adhoc.value].resources
  {
    RunsKeepInv(steps, y);
    assert LinkOk(y.reg, y.reg.jobHeap[job].wants, y.reg.jobHeap[job].adhoc);
  }
}
