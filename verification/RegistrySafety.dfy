/** What every run of the registry protocol keeps. */
module RegistrySafety {
  import opened Common
  import opened Registry
  import opened RegistryProtocol

  // ---------------------------------------------------------------------------------------------------------
  // The critical sections on the state
  // ---------------------------------------------------------------------------------------------------------

  /** The object a successful `create` adds, and the state with it in. */
  function Grown(s: State, job: Job): State {
    s.(jobHeap := s.jobHeap + [job], jobs := s.jobs[job.id := |s.jobHeap|],
       bySlurm := if job.slurmId in s.bySlurm then s.bySlurm else s.bySlurm[job.slurmId := job.id])
  }

  lemma GrownKeepsHeap(s: State, job: Job)
    requires HeapInv(s) && LinkOk(s, job.wants, job.adhoc) && job.id < s.jobTickets
    requires forall i :: 0 <= i < |s.jobHeap| ==> s.jobHeap[i].id != job.id
    ensures HeapInv(Grown(s, job)) && job.id !in s.jobs
  {
    var s' := Grown(s, job);
    assert forall id :: id in s.jobs ==> s.jobHeap[s.jobs[id]].id == id;
    assert forall i :: 0 <= i < |s.jobHeap| ==> s'.jobHeap[i] == s.jobHeap[i];
    assert s'.jobHeap[|s.jobHeap|] == job;
    assert forall wants, adhoc :: LinkOk(s', wants, adhoc) == LinkOk(s, wants, adhoc);
    hide LinkOk;
  }

  lemma GrownEvolves(s: State, job: Job)
    requires RefsOk(s) && job.id !in s.jobs
    ensures Evolves(s, Grown(s, job))
  {
    var s' := Grown(s, job);
    assert forall i :: 0 <= i < |s.jobHeap| ==> s'.jobHeap[i] == s.jobHeap[i];
  }

  lemma GrownKeepsRest(s: State, job: Job)
    requires RefsOk(s) && IndexSound(s) && SlotsPointBack(s) && job.id !in s.jobs
    ensures IndexSound(Grown(s, job)) && SlotsPointBack(Grown(s, job))
  {
  }

  lemma EvolvesReflexive(s: State)
    ensures Evolves(s, s)
  {
  }

  lemma InsertJobKeeps(s: State, id: JobId, slurmId: SlurmId, resources: Nodes, wants: Option<Wanted>, adhoc: Option<AdhocRef>)
    requires StateInv(s) && LinkOk(s, wants, adhoc) && id < s.jobTickets
    requires forall i :: 0 <= i < |s.jobHeap| ==> s.jobHeap[i].id != id
    ensures id !in s.jobs
    ensures var s' := InsertJob(s, id, slurmId, resources, wants, adhoc).0; StateInv(s') && Evolves(s, s')
  {
    var job := Job(id, slurmId, resources, wants, adhoc);
    hide IndexSound, SlotsPointBack, Evolves, LinkOk, JobHeapInv, AdhocHeapInv;
    GrownKeepsHeap(s, job);
    GrownEvolves(s, job);
    GrownKeepsRest(s, job);
  }

  lemma EraseJobKeeps(s: State, id: JobId)
    requires StateInv(s)
    ensures var s' := EraseJob(s, id).0; StateInv(s') && Evolves(s, s')
    ensures id in s.jobs ==> !Live(EraseJob(s, id).0, s.jobs[id])
  {
    var s' := EraseJob(s, id).0;
    if id in s.jobs {
      assert s.jobHeap[s.jobs[id]].id == id;
      forall k | k in s'.bySlurm
        ensures s'.bySlurm[k] in s'.jobs
      {
        assert s.jobHeap[s.jobs[s.bySlurm[k]]].slurmId == k;
      }
    }
  }

  lemma SetJobResourcesKeeps(s: State, id: JobId, resources: Nodes)
    requires StateInv(s)
    ensures var s' := SetJobResources(s, id, resources).0; StateInv(s') && Evolves(s, s')
  {
    var s' := SetJobResources(s, id, resources).0;
    assert forall i :: 0 <= i < |s.jobHeap| ==> s.jobHeap[i] == s'.jobHeap[i].(resources := s.jobHeap[i].resources);
  }

  /** Reassigning the resources or the slot of one adhoc object. */
  lemma SetAdhocKeeps(s: State, ref: AdhocRef, a: Adhoc)
    requires StateInv(s) && ref < |s.adhocHeap|
    requires s.adhocHeap[ref] == a.(resources := s.adhocHeap[ref].resources, client := s.adhocHeap[ref].client)
    requires a.client.Some? ==> a.client.value < |s.jobHeap| && s.jobHeap[a.client.value].adhoc == Some(ref)
    ensures var s' := s.(adhocHeap := s.adhocHeap[ref := a]); StateInv(s') && Evolves(s, s')
  {
    var s' := s.(adhocHeap := s.adhocHeap[ref := a]);
    assert forall i :: 0 <= i < |s.adhocHeap| ==> s'.adhocHeap[i].id == s.adhocHeap[i].id;
    assert forall i :: 0 <= i < |s.jobHeap| ==> Live(s', i) == Live(s, i);
  }

  lemma InsertAdhocKeeps(s: State, id: AdhocId, info: Info, resources: Nodes)
    requires StateInv(s) && id < s.adhocTickets
    requires forall i :: 0 <= i < |s.adhocHeap| ==> s.adhocHeap[i].id != id
    ensures id !in s.adhocs
    ensures var s' := InsertAdhoc(s, id, info, resources).0; StateInv(s') && Evolves(s, s')
  {
    assert forall id :: id in s.adhocs ==> s.adhocHeap[s.adhocs[id]].id == id;
    hide IndexSound, SlotsPointBack, Evolves, LinkOk, JobHeapInv, AdhocHeapInv;
    var a := Adhoc(id, info, resources, None);
    WithAdhocKeepsHeap(s, a);
    WithAdhocKeepsRest(s, a);
  }

  /** The object a successful `create` of the adhoc storage manager adds, and the state with it in. */
  function WithAdhoc(s: State, a: Adhoc): State {
    s.(adhocHeap := s.adhocHeap + [a], adhocs := s.adhocs[a.id := |s.adhocHeap|])
  }

  lemma WithAdhocKeepsHeap(s: State, a: Adhoc)
    requires HeapInv(s) && a.id < s.adhocTickets
    requires forall i :: 0 <= i < |s.adhocHeap| ==> s.adhocHeap[i].id != a.id
    ensures HeapInv(WithAdhoc(s, a))
  {
    var s' := WithAdhoc(s, a);
    assert forall i :: 0 <= i < |s.adhocHeap| ==> s'.adhocHeap[i] == s.adhocHeap[i];
    assert forall wants, adhoc :: LinkOk(s, wants, adhoc) ==> LinkOk(s', wants, adhoc);
    hide LinkOk;
  }

  lemma WithAdhocKeepsRest(s: State, a: Adhoc)
    requires RefsOk(s) && IndexSound(s) && SlotsPointBack(s) && a.client.None?
    ensures var s' := WithAdhoc(s, a); IndexSound(s') && SlotsPointBack(s') && Evolves(s, s')
  {
    var s' := WithAdhoc(s, a);
    assert forall i :: 0 <= i < |s.adhocHeap| ==> s'.adhocHeap[i] == s.adhocHeap[i];
    assert forall i :: Live(s', i) == Live(s, i);
    hide Live;
  }

  lemma RegisterAdhocKeeps(s: State, info: Info, resources: Nodes)
    requires StateInv(s) && s.adhocTickets < WORD
    ensures var s' := RegisterAdhoc(s, info, resources).0; StateInv(s') && Evolves(s, s')
  {
    var s1 := s.(adhocTickets := s.adhocTickets + 1);
    TicketKeeps(s, s1);
    assert forall i :: 0 <= i < |s.adhocHeap| ==> s.adhocHeap[i].id != s.adhocTickets;
    hide HeapInv, IndexSound, SlotsPointBack, InsertAdhoc;
    InsertAdhocKeeps(s1, s.adhocTickets, info, resources);
    EvolvesTransitive(s, s1, RegisterAdhoc(s, info, resources).0);
  }

  lemma EvolvesTransitive(s: State, m: State, s': State)
    requires Evolves(s, m) && Evolves(m, s')
    ensures Evolves(s, s')
  {
    hide Live;
  }

  lemma FewerAdhocsKeep(s: State, adhocs: map<AdhocId, AdhocRef>)
    requires StateInv(s) && forall id :: id in adhocs ==> id in s.adhocs && adhocs[id] == s.adhocs[id]
    ensures var s' := s.(adhocs := adhocs); StateInv(s') && Evolves(s, s')
  {
    var s' := s.(adhocs := adhocs);
    assert forall wants, adhoc :: LinkOk(s', wants, adhoc) == LinkOk(s, wants, adhoc);
    assert forall i :: Live(s', i) == Live(s, i);
    hide LinkOk, Live;
  }

  lemma EraseAdhocKeeps(s: State, id: AdhocId)
    requires StateInv(s)
    ensures var s' := EraseAdhoc(s, id).0; StateInv(s') && Evolves(s, s')
  {
    FewerAdhocsKeep(s, EraseAdhoc(s, id).0.adhocs);
  }

  /** Drawing an identifier changes nothing else. */
  lemma TicketKeeps(s: State, s': State)
    requires StateInv(s) && s' == s.(jobTickets := s'.jobTickets, adhocTickets := s'.adhocTickets)
    requires s.jobTickets <= s'.jobTickets && s.adhocTickets <= s'.adhocTickets
    ensures StateInv(s') && Evolves(s, s')
  {
    assert forall i :: Live(s', i) == Live(s, i);
    assert forall wants, adhoc :: LinkOk(s', wants, adhoc) == LinkOk(s, wants, adhoc);
    hide Live, LinkOk;
  }

  // ---------------------------------------------------------------------------------------------------------
  // The threads
  // ---------------------------------------------------------------------------------------------------------

  /** The objects that `s'` has and `s` had not do not carry the identifier the thread has drawn. */
  ghost predicate Untaken(s: State, s': State, thread: Thread) {
    && (thread.Ticketed? ==> forall i :: |s.jobHeap| <= i < |s'.jobHeap| ==> s'.jobHeap[i].id != thread.id)
    && (thread.AdhocTicketed? ==> forall i :: |s.adhocHeap| <= i < |s'.adhocHeap| ==> s'.adhocHeap[i].id != thread.adhocId)
  }

  lemma ThreadKeeps(s: State, s': State, thread: Thread)
    requires ThreadInv(s, thread) && Evolves(s, s') && Untaken(s, s', thread)
    ensures ThreadInv(s', thread)
  {
  }

  /** `y'` follows `y` and keeps the invariant. */
  ghost predicate Advances(y: System, y': System) {
    Inv(y') && Evolves(y.reg, y'.reg)
  }

  /** The other threads are not disturbed by a registry `s'` in which thread `t` has become `thread`. */
  ghost predicate LeavesOthers(y: System, s': State, t: ThreadId, thread: Thread) {
    forall u :: u in y.threads && u != t ==> Untaken(y.reg, s', y.threads[u]) && Apart(thread, y.threads[u])
  }

  /** A section that takes the registry to `s'` and thread `t` to `thread`. */
  lemma SectionAdvances(y: System, s': State, t: ThreadId, thread: Thread)
    requires Inv(y) && StateInv(s') && Evolves(y.reg, s') && ThreadInv(s', thread) && LeavesOthers(y, s', t, thread)
    ensures Advances(y, System(s', y.threads[t := thread]))
  {
    hide StateInv, Evolves, ThreadInv, Untaken;
    var y' := System(s', y.threads[t := thread]);
    forall u | u in y'.threads
      ensures ThreadInv(s', y'.threads[u])
    {
      if u != t {
        ThreadKeeps(y.reg, s', y.threads[u]);
      }
    }
  }

  /** A section that adds no object, on a thread that ends up holding nothing. */
  lemma QuietSectionAdvances(y: System, s': State, t: ThreadId, thread: Thread)
    requires Inv(y) && StateInv(s') && Evolves(y.reg, s') && ThreadInv(s', thread) && ClaimOf(thread).None?
    requires |s'.jobHeap| == |y.reg.jobHeap| && |s'.adhocHeap| == |y.reg.adhocHeap|
    ensures Advances(y, System(s', y.threads[t := thread]))
  {
    hide StateInv, Evolves, ThreadInv, ThreadsInv, Inv, ClaimOf;
    SectionAdvances(y, s', t, thread);
  }

  /** A step that changes the registry, adds no object, and moves no thread. */
  lemma StateStepAdvances(y: System, s': State)
    requires Inv(y) && StateInv(s') && Evolves(y.reg, s')
    requires |s'.jobHeap| == |y.reg.jobHeap| && |s'.adhocHeap| == |y.reg.adhocHeap|
    ensures Advances(y, y.(reg := s'))
  {
    hide Evolves, ThreadInv, StateInv;
    forall t | t in y.threads
      ensures ThreadInv(s', y.threads[t])
    {
      ThreadKeeps(y.reg, s', y.threads[t]);
    }
  }

  // ---------------------------------------------------------------------------------------------------------
  // The steps
  // ---------------------------------------------------------------------------------------------------------

  /** The steps that only look at the registry. */
  predicate OnlyLooks(step: Step) {
    step.StartRegister? || step.FindAdhoc? || step.CountNodes? || step.Contact?
  }

  lemma LookAdvances(y: System, step: Step)
    requires Inv(y) && Enabled(y, step) && OnlyLooks(step)
    ensures Advances(y, Apply(y, step))
  {
    var thread := Apply(y, step).threads[step.t];
    assert ThreadInv(y.reg, thread) && ClaimOf(thread).None?;
    assert Apply(y, step) == System(y.reg, y.threads[step.t := thread]);
    hide StateInv, ThreadInv, ThreadsInv, Apply, Enabled, Evolves, ClaimOf;
    EvolvesReflexive(y.reg);
    QuietSectionAdvances(y, y.reg, step.t, thread);
  }

  /** No thread holds an identifier that has not been drawn yet. */
  lemma ClaimsAreDrawn(y: System)
    requires ThreadsInv(y)
    ensures forall u :: u in y.threads && y.threads[u].Ticketed? ==> y.threads[u].id < y.reg.jobTickets
    ensures forall u :: u in y.threads && y.threads[u].AdhocTicketed? ==> y.threads[u].adhocId < y.reg.adhocTickets
    ensures forall u :: u in y.threads && y.threads[u].Created? ==> y.threads[u].job < |y.reg.jobHeap|
  {
    forall u | u in y.threads
      ensures ThreadInv(y.reg, y.threads[u])
    {
    }
    hide LinkOk, Live;
  }

  lemma TicketAdvances(y: System, t: ThreadId)
    requires Inv(y) && Enabled(y, TakeTicket(t)) && Unwrapped(Apply(y, TakeTicket(t)).reg)
    ensures Advances(y, Apply(y, TakeTicket(t)))
  {
    var s' := Apply(y, TakeTicket(t)).reg;
    var thread := Apply(y, TakeTicket(t)).threads[t];
    assert ThreadInv(y.reg, y.threads[t]);
    assert ThreadInv(s', thread);
    hide HeapInv, IndexSound, SlotsPointBack, ThreadInv, Evolves;
    ClaimsAreDrawn(y);
    hide ThreadsInv;
    TicketKeeps(y.reg, s');
    SectionAdvances(y, s', t, thread);
  }

  lemma AdhocTicketAdvances(y: System, t: ThreadId, info: Info, resources: Nodes)
    requires Inv(y) && Enabled(y, TakeAdhocTicket(t, info, resources))
    requires Unwrapped(Apply(y, TakeAdhocTicket(t, info, resources)).reg)
    ensures Advances(y, Apply(y, TakeAdhocTicket(t, info, resources)))
  {
    var s' := Apply(y, TakeAdhocTicket(t, info, resources)).reg;
    var thread := Apply(y, TakeAdhocTicket(t, info, resources)).threads[t];
    assert ThreadInv(s', thread);
    hide HeapInv, IndexSound, SlotsPointBack, ThreadInv, Evolves;
    ClaimsAreDrawn(y);
    hide ThreadsInv;
    TicketKeeps(y.reg, s');
    SectionAdvances(y, s', t, thread);
  }

  lemma CreateAdvances(y: System, t: ThreadId)
    requires Inv(y) && Enabled(y, Create(t))
    ensures y.threads[t].id !in y.reg.jobs
    ensures Advances(y, Apply(y, Create(t)))
  {
    hide HeapInv, IndexSound, SlotsPointBack, Evolves, LinkOk, Live;
    var th := y.threads[t];
    assert ThreadInv(y.reg, th);
    InsertJobKeeps(y.reg, th.id, th.slurmId, th.resources, th.wants, th.adhoc);
    ClaimsAreDrawn(y);
    var y' := Apply(y, Create(t));
    assert y'.threads[t] == Created(th.adhoc, |y.reg.jobHeap|);
    assert y'.reg.jobHeap == y.reg.jobHeap + [Job(th.id, th.slurmId, th.resources, th.wants, th.adhoc)];
    forall u | u in y.threads && u != t
      ensures Untaken(y.reg, y'.reg, y.threads[u]) && Apart(y'.threads[t], y.threads[u])
    {
      assert Apart(th, y.threads[u]);
    }
    assert ThreadInv(y'.reg, y'.threads[t]);
    hide ThreadInv, ThreadsInv, InsertJob, Untaken, Apart;
    SectionAdvances(y, y'.reg, t, y'.threads[t]);
  }

  lemma CreateAdhocAdvances(y: System, t: ThreadId)
    requires Inv(y) && Enabled(y, CreateAdhoc(t))
    ensures y.threads[t].adhocId !in y.reg.adhocs
    ensures Advances(y, Apply(y, CreateAdhoc(t)))
  {
    hide HeapInv, IndexSound, SlotsPointBack, Evolves, LinkOk, Live;
    var th := y.threads[t];
    assert ThreadInv(y.reg, th);
    InsertAdhocKeeps(y.reg, th.adhocId, th.info, th.nodes);
    var y' := Apply(y, CreateAdhoc(t));
    assert y'.reg.adhocHeap == y.reg.adhocHeap + [Adhoc(th.adhocId, th.info, th.nodes, None)];
    forall u | u in y.threads && u != t
      ensures Untaken(y.reg, y'.reg, y.threads[u]) && Apart(y'.threads[t], y.threads[u])
    {
      assert Apart(th, y.threads[u]);
    }
    assert ThreadInv(y'.reg, y'.threads[t]);
    hide ThreadInv, ThreadsInv, InsertAdhoc, Untaken, Apart;
    SectionAdvances(y, y'.reg, t, y'.threads[t]);
  }

  lemma EnlistAdvances(y: System, t: ThreadId)
    requires Inv(y) && Enabled(y, Enlist(t))
    ensures Advances(y, Apply(y, Enlist(t)))
  {
    var th := y.threads[t];
    assert ThreadInv(y.reg, th);
    hide HeapInv, IndexSound, Evolves;
    EvolvesReflexive(y.reg);
    if th.adhoc.Some? && y.reg.adhocHeap[th.adhoc.value].client.None? {
      var ref := th.adhoc.value;
      SetAdhocKeeps(y.reg, ref, y.reg.adhocHeap[ref].(client := Some(th.job)));
    }
    hide SlotsPointBack, ThreadsInv;
    var y' := Apply(y, Enlist(t));
    assert y'.threads == y.threads[t := y'.threads[t]];
    QuietSectionAdvances(y, y'.reg, t, y'.threads[t]);
  }

  lemma EraseAdvances(y: System, t: ThreadId, id: JobId)
    requires Inv(y) && Enabled(y, Erase(t, id))
    ensures Advances(y, Apply(y, Erase(t, id)))
  {
    hide HeapInv, IndexSound, SlotsPointBack, Evolves, ThreadsInv;
    var y' := Apply(y, Erase(t, id));
    EraseJobKeeps(y.reg, id);
    QuietSectionAdvances(y, y'.reg, t, y'.threads[t]);
  }

  lemma UnlistAdvances(y: System, t: ThreadId)
    requires Inv(y) && Enabled(y, Unlist(t))
    ensures Advances(y, Apply(y, Unlist(t)))
  {
    hide HeapInv, IndexSound, SlotsPointBack, Evolves, ThreadsInv;
    var y' := Apply(y, Unlist(t));
    var wants := y.reg.jobHeap[y.threads[t].job].wants;
    EvolvesReflexive(y.reg);
    if wants.Some? && wants.value.id in y.reg.adhocs {
      var ref := y.reg.adhocs[wants.value.id];
      SetAdhocKeeps(y.reg, ref, y.reg.adhocHeap[ref].(client := None));
    }
    QuietSectionAdvances(y, y'.reg, t, y'.threads[t]);
  }

  lemma ResizeJobAdvances(y: System, job: JobId, resources: Nodes)
    requires Inv(y)
    ensures Advances(y, y.(reg := SetJobResources(y.reg, job, resources).0))
  {
    hide IndexSound, SlotsPointBack, Evolves, ThreadsInv;
    SetJobResourcesKeeps(y.reg, job, resources);
    EvolvesReflexive(y.reg);
    StateStepAdvances(y, SetJobResources(y.reg, job, resources).0);
  }

  lemma SetAdhocResourcesKeeps(s: State, adhoc: AdhocId, resources: Nodes)
    requires StateInv(s)
    ensures var s' := SetAdhocResources(s, adhoc, resources).0; StateInv(s') && Evolves(s, s')
  {
    EvolvesReflexive(s);
    if adhoc in s.adhocs {
      var ref := s.adhocs[adhoc];
      assert s.adhocHeap[ref].client.Some? ==>
          s.adhocHeap[ref].client.value < |s.jobHeap| && s.jobHeap[s.adhocHeap[ref].client.value].adhoc == Some(ref);
      hide IndexSound, SlotsPointBack, Evolves, HeapInv;
      SetAdhocKeeps(s, ref, s.adhocHeap[ref].(resources := resources));
    }
  }

  lemma SetNodesAdvances(y: System, t: ThreadId)
    requires Inv(y) && Enabled(y, SetNodes(t))
    ensures Advances(y, Apply(y, SetNodes(t)))
  {
    hide IndexSound, SlotsPointBack, Evolves, ThreadsInv, HeapInv;
    var y' := Apply(y, SetNodes(t));
    SetAdhocResourcesKeeps(y.reg, y.threads[t].storage, y.threads[t].wanted);
    QuietSectionAdvances(y, y'.reg, t, y'.threads[t]);
  }

  lemma DropAdhocAdvances(y: System, adhoc: AdhocId)
    requires Inv(y)
    ensures Advances(y, y.(reg := EraseAdhoc(y.reg, adhoc).0))
  {
    hide IndexSound, SlotsPointBack, Evolves, ThreadsInv, HeapInv;
    EraseAdhocKeeps(y.reg, adhoc);
    StateStepAdvances(y, EraseAdhoc(y.reg, adhoc).0);
  }

  /** Every step keeps the invariant and changes nothing that is fixed, as long as no counter has wrapped around. */
  lemma StepAdvances(y: System, step: Step)
    requires Inv(y) && Enabled(y, step) && Unwrapped(Apply(y, step).reg)
    ensures Advances(y, Apply(y, step))
  {
    hide Inv, Evolves, Advances;
    match step
    case StartRegister(_, _, _, _) => LookAdvances(y, step);
    case FindAdhoc(_) => LookAdvances(y, step);
    case TakeTicket(t) => TicketAdvances(y, t);
    case Create(t) => CreateAdvances(y, t);
    case Enlist(t) => EnlistAdvances(y, t);
    case Erase(t, id) => EraseAdvances(y, t, id);
    case Unlist(t) => UnlistAdvances(y, t);
    case ResizeJob(job, resources) => ResizeJobAdvances(y, job, resources);
    case TakeAdhocTicket(t, info, resources) => AdhocTicketAdvances(y, t, info, resources);
    case CreateAdhoc(t) => CreateAdhocAdvances(y, t);
    case CountNodes(_, _, _) => LookAdvances(y, step);
    case SetNodes(t) => SetNodesAdvances(y, t);
    case Contact(_, _) => LookAdvances(y, step);
    case DropAdhoc(adhoc) => DropAdhocAdvances(y, adhoc);
  }
}
