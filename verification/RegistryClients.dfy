/** The client slots of the adhoc storages, over every run in which removals are polite. */
module RegistryClients {
  import opened Common
  import opened Registry
  import opened RegistryProtocol
  import opened RegistrySafety

  /** No slot of a registered storage has a client it did not have, and the jobs are the same ones. */
  ghost predicate SameClients(s: State, s': State)
    requires RefsOk(s) && RefsOk(s')
  {
    && (forall j :: Live(s, j) == Live(s', j))
    && (forall id :: id in s'.adhocs && s'.adhocHeap[s'.adhocs[id]].client.Some? ==>
          id in s.adhocs && s.adhocHeap[s.adhocs[id]].client == s'.adhocHeap[s'.adhocs[id]].client)
  }

  /** Slots stay live if no slot gains a client, no job dies, and every removal under way still is. */
  lemma SlotsStayLive(y: System, y': System)
    requires SlotsLive(y) && RefsOk(y.reg)
    requires forall j :: Live(y.reg, j) ==> Live(y'.reg, j)
    requires forall t :: t in y.threads && y.threads[t].Erased? ==> t in y'.threads && y'.threads[t] == y.threads[t]
    requires forall id :: id in y'.reg.adhocs && y'.reg.adhocs[id] < |y'.reg.adhocHeap| && y'.reg.adhocHeap[y'.reg.adhocs[id]].client.Some? ==>
               id in y.reg.adhocs && y.reg.adhocHeap[y.reg.adhocs[id]].client == y'.reg.adhocHeap[y'.reg.adhocs[id]].client
    ensures SlotsLive(y')
  {
    forall id | id in y'.reg.adhocs && y'.reg.adhocs[id] < |y'.reg.adhocHeap| && y'.reg.adhocHeap[y'.reg.adhocs[id]].client.Some?
      ensures var job := y'.reg.adhocHeap[y'.reg.adhocs[id]].client.value; Live(y'.reg, job) || BeingRemoved(y', job)
    {
      var job := y.reg.adhocHeap[y.reg.adhocs[id]].client.value;
      if !Live(y.reg, job) {
        var t :| t in y.threads && y.threads[t] == Erased(job);
        assert y'.threads[t] == Erased(job);
      }
    }
  }

  /** Moving a thread that is not a removal about to clear a slot, with the registry's jobs and slots unchanged. */
  lemma QuietStepKeepsClients(y: System, s': State, t: ThreadId, thread: Thread)
    requires ClientsInv(y) && RefsOk(y.reg) && RefsOk(s') && SameClients(y.reg, s')
    requires t in y.threads ==> !y.threads[t].Erased?
    requires !thread.Created?
    ensures ClientsInv(System(s', y.threads[t := thread]))
  {
    hide Live;
    var y' := System(s', y.threads[t := thread]);
    SlotsStayLive(y, y');
  }

  lemma StateStepKeepsClients(y: System, s': State)
    requires ClientsInv(y) && RefsOk(y.reg) && RefsOk(s') && SameClients(y.reg, s')
    ensures ClientsInv(y.(reg := s'))
  {
    hide Live;
    SlotsStayLive(y, y.(reg := s'));
  }

  lemma CreateKeepsLive(y: System, t: ThreadId)
    requires StateInv(y.reg) && Enabled(y, Create(t)) && y.threads[t].id !in y.reg.jobs
    ensures var s' := Apply(y, Create(t)).reg;
            && (forall j :: Live(y.reg, j) ==> Live(s', j)) && Live(s', |y.reg.jobHeap|)
            && s'.adhocs == y.reg.adhocs && s'.adhocHeap == y.reg.adhocHeap
            && Apply(y, Create(t)).threads == y.threads[t := Created(y.threads[t].adhoc, |y.reg.jobHeap|)]
  {
    hide StateInv;
    var s' := Apply(y, Create(t)).reg;
    forall j: JobRef | Live(y.reg, j)
      ensures Live(s', j)
    {
      assert s'.jobHeap[j] == y.reg.jobHeap[j];
    }
  }

  lemma CreateKeepsClients(y: System, t: ThreadId)
    requires Inv(y) && ClientsInv(y) && Enabled(y, Create(t))
    ensures ClientsInv(Apply(y, Create(t)))
  {
    hide StateInv, ThreadsInv, Advances, Live, Apply;
    assert RefsOk(y.reg);
    CreateAdvances(y, t);
    CreateKeepsLive(y, t);
    SlotsStayLive(y, Apply(y, Create(t)));
  }

  lemma EnlistKeepsClients(y: System, t: ThreadId)
    requires Inv(y) && ClientsInv(y) && Enabled(y, Enlist(t))
    ensures ClientsInv(Apply(y, Enlist(t)))
  {
    var y' := Apply(y, Enlist(t));
    var job := y.threads[t].job;
    assert Live(y.reg, job);
    assert forall j :: Live(y'.reg, j) == Live(y.reg, j);
    forall id | id in y'.reg.adhocs && y'.reg.adhocs[id] < |y'.reg.adhocHeap| && y'.reg.adhocHeap[y'.reg.adhocs[id]].client.Some?
      ensures var job := y'.reg.adhocHeap[y'.reg.adhocs[id]].client.value; Live(y'.reg, job) || BeingRemoved(y', job)
    {
      var client := y'.reg.adhocHeap[y'.reg.adhocs[id]].client.value;
      if client != job {
        assert y.reg.adhocHeap[y.reg.adhocs[id]].client == Some(client);
        if !Live(y.reg, client) {
          var u :| u in y.threads && y.threads[u] == Erased(client);
          assert y'.threads[u] == Erased(client);
        }
      }
    }
  }

  lemma EraseKeepsClients(y: System, t: ThreadId, id: JobId)
    requires Inv(y) && ClientsInv(y) && Enabled(y, Erase(t, id)) && Polite(y, Erase(t, id))
    ensures ClientsInv(Apply(y, Erase(t, id)))
  {
    var y' := Apply(y, Erase(t, id));
    assert forall j :: Live(y.reg, j) ==> Live(y'.reg, j) || (id in y.reg.jobs && j == y.reg.jobs[id]);
    forall a | a in y'.reg.adhocs && y'.reg.adhocs[a] < |y'.reg.adhocHeap| && y'.reg.adhocHeap[y'.reg.adhocs[a]].client.Some?
      ensures var job := y'.reg.adhocHeap[y'.reg.adhocs[a]].client.value; Live(y'.reg, job) || BeingRemoved(y', job)
    {
      var job := y.reg.adhocHeap[y.reg.adhocs[a]].client.value;
      if Live(y.reg, job) {
        if !Live(y'.reg, job) {
          assert y'.threads[t] == Erased(job);
        }
      } else {
        var u :| u in y.threads && y.threads[u] == Erased(job);
        assert y'.threads[u] == Erased(job);
      }
    }
  }

  lemma UnlistKeepsClients(y: System, t: ThreadId)
    requires Inv(y) && ClientsInv(y) && Enabled(y, Unlist(t))
    ensures ClientsInv(Apply(y, Unlist(t)))
  {
    hide IndexSound;
    var y' := Apply(y, Unlist(t));
    var gone := y.threads[t].job;
    assert forall j :: Live(y'.reg, j) == Live(y.reg, j);
    forall a | a in y'.reg.adhocs && y'.reg.adhocs[a] < |y'.reg.adhocHeap| && y'.reg.adhocHeap[y'.reg.adhocs[a]].client.Some?
      ensures var job := y'.reg.adhocHeap[y'.reg.adhocs[a]].client.value; Live(y'.reg, job) || BeingRemoved(y', job)
    {
      var r := y.reg.adhocs[a];
      var job := y.reg.adhocHeap[r].client.value;
      assert y.reg.jobHeap[job].adhoc == Some(r) && y.reg.adhocHeap[r].id == a;
      assert LinkOk(y.reg, y.reg.jobHeap[job].wants, y.reg.jobHeap[job].adhoc);
      assert job != gone;
      if !Live(y.reg, job) {
        var u :| u in y.threads && y.threads[u] == Erased(job);
        assert y'.threads[u] == Erased(job);
      }
    }
  }

  lemma ResizeJobKeepsClients(y: System, job: JobId, resources: Nodes)
    requires ClientsInv(y) && RefsOk(y.reg)
    ensures ClientsInv(y.(reg := SetJobResources(y.reg, job, resources).0))
  {
    hide ClientsInv;
    StateStepKeepsClients(y, SetJobResources(y.reg, job, resources).0);
  }

  lemma DropAdhocKeepsClients(y: System, adhoc: AdhocId)
    requires ClientsInv(y) && RefsOk(y.reg)
    ensures ClientsInv(y.(reg := EraseAdhoc(y.reg, adhoc).0))
  {
    hide ClientsInv;
    StateStepKeepsClients(y, EraseAdhoc(y.reg, adhoc).0);
  }

  /** The steps that neither create nor remove a job and neither fill nor clear a slot. */
  predicate LeavesClients(step: Step) {
    || OnlyLooks(step) || step.TakeTicket? || step.TakeAdhocTicket? || step.CreateAdhoc? || step.SetNodes?
  }

  lemma LookKeepsSlots(y: System, step: Step)
    requires Enabled(y, step) && LeavesClients(step)
    ensures RefsOk(Apply(y, step).reg) && SameClients(y.reg, Apply(y, step).reg)
  {
    assert forall j :: Live(y.reg, j) == Live(Apply(y, step).reg, j);
    hide Live;
  }

  lemma LookKeepsClients(y: System, step: Step)
    requires ClientsInv(y) && Enabled(y, step) && LeavesClients(step)
    ensures ClientsInv(Apply(y, step))
  {
    var y' := Apply(y, step);
    assert y'.threads == y.threads[step.t := y'.threads[step.t]];
    LookKeepsSlots(y, step);
    hide ClientsInv, SameClients, Apply;
    QuietStepKeepsClients(y, y'.reg, step.t, y'.threads[step.t]);
  }

  lemma StepKeepsClients(y: System, step: Step)
    requires Inv(y) && ClientsInv(y) && Enabled(y, step) && Polite(y, step)
    ensures ClientsInv(Apply(y, step))
  {
    hide ClientsInv, ThreadsInv, StateInv;
    match step
    case Create(t) => CreateKeepsClients(y, t);
    case Enlist(t) => EnlistKeepsClients(y, t);
    case Erase(t, id) => EraseKeepsClients(y, t, id);
    case Unlist(t) => UnlistKeepsClients(y, t);
    case ResizeJob(job, resources) => ResizeJobKeepsClients(y, job, resources);
    case DropAdhoc(adhoc) => DropAdhocKeepsClients(y, adhoc);
    case _ => hide Apply; LookKeepsClients(y, step);
  }
}
