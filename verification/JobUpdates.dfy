/** The resources of a job over its life, whatever handlers are interleaved. */
module JobUpdates {
  import opened Common
  import opened Registry
  import opened RegistryProtocol
  import opened RegistryTheorems

  /** The resources that the last update_job for the identifier gave, if there was one. */
  function LastResize(steps: seq<Step>, id: JobId): Option<Nodes> {
    if steps == [] then None
    else
      var last := steps[|steps| - 1];
      if last.ResizeJob? && last.job == id then Some(last.resources) else LastResize(steps[..|steps| - 1], id)
  }

  /** A job that is registered before a step and after it keeps everything, and its resources unless the step updates it. */
  lemma StepKeepsJob(y: System, step: Step, id: JobId)
    requires Inv(y) && Enabled(y, step) && Unwrapped(Apply(y, step).reg)
    requires id in y.reg.jobs && id in Apply(y, step).reg.jobs
    ensures Apply(y, step).reg.jobs[id] == y.reg.jobs[id] < |y.reg.jobHeap| <= |Apply(y, step).reg.jobHeap|
    ensures var job, job' := y.reg.jobHeap[y.reg.jobs[id]], Apply(y, step).reg.jobHeap[y.reg.jobs[id]];
            job' == if step.ResizeJob? && step.job == id then job.(resources := step.resources) else job
  {
    RefsApart(y.reg, id);
    CreatesNoRegistered(y, step, id);
    hide ThreadsInv, StateInv;
    if step.ResizeJob? {
      ResizeKeepsJob(y, step.job, step.resources, id);
    } else {
      OthersKeepJob(y, step, id);
    }
  }

  lemma CreatesNoRegistered(y: System, step: Step, id: JobId)
    requires Inv(y) && Enabled(y, step) && id in y.reg.jobs
    ensures step.Create? ==> y.threads[step.t].id != id
  {
    if step.Create? {
      ClaimIsUnused(y, step.t);
      assert y.reg.jobHeap[y.reg.jobs[id]].id == id;
    }
  }

  lemma RefsApart(s: State, id: JobId)
    requires StateInv(s) && id in s.jobs
    ensures RefsOk(s) && forall j :: j in s.jobs && j != id ==> s.jobs[j] != s.jobs[id]
  {
    assert forall j :: j in s.jobs ==> s.jobHeap[s.jobs[j]].id == j;
  }

  lemma ResizeKeepsJob(y: System, other: JobId, resources: Nodes, id: JobId)
    requires RefsOk(y.reg) && id in y.reg.jobs && forall j :: j in y.reg.jobs && j != id ==> y.reg.jobs[j] != y.reg.jobs[id]
    ensures var s' := Apply(y, ResizeJob(other, resources)).reg;
            && s'.jobs == y.reg.jobs && |s'.jobHeap| == |y.reg.jobHeap|
            && s'.jobHeap[y.reg.jobs[id]] ==
               if other == id then y.reg.jobHeap[y.reg.jobs[id]].(resources := resources) else y.reg.jobHeap[y.reg.jobs[id]]
  {
  }

  lemma OthersKeepJob(y: System, step: Step, id: JobId)
    requires RefsOk(y.reg) && Enabled(y, step) && !step.ResizeJob?
    requires id in y.reg.jobs && id in Apply(y, step).reg.jobs && (step.Create? ==> y.threads[step.t].id != id)
    ensures var s' := Apply(y, step).reg;
            && s'.jobs[id] == y.reg.jobs[id] && |y.reg.jobHeap| <= |s'.jobHeap|
            && s'.jobHeap[y.reg.jobs[id]] == y.reg.jobHeap[y.reg.jobs[id]]
  {
  }

  /** A job that is registered again was never away: identifiers do not come back. */
  lemma StillRegistered(y: System, step: Step, ref: JobRef, id: JobId)
    requires Inv(y) && Enabled(y, step) && Unwrapped(Apply(y, step).reg)
    requires ref < |y.reg.jobHeap| && y.reg.jobHeap[ref].id == id && id in Apply(y, step).reg.jobs
    ensures id in y.reg.jobs
  {
    if step.Create? {
      ClaimIsUnused(y, step.t);
    }
    hide ThreadsInv, StateInv;
  }

  /** In any run, a registered job has the resources of the last update_job for it, and those it had if there was none. */
  lemma {:induction false} ResourcesAreTheLastSet(steps: seq<Step>, y: System, more: seq<Step>, y': System, id: JobId)
    requires ReachedBy(steps, y) && ReachedBy(steps + more, y') && id in y.reg.jobs && id in y'.reg.jobs
    ensures y'.reg.jobs[id] == y.reg.jobs[id] < |y.reg.jobHeap| <= |y'.reg.jobHeap|
    ensures var job, job' := y.reg.jobHeap[y.reg.jobs[id]], y'.reg.jobHeap[y.reg.jobs[id]];
            job' == job.(resources := match LastResize(more, id) case Some(nodes) => nodes case None => job.resources)
    decreases |more|
  {
    hide Exec, Enabled, Apply, StateInv, ThreadsInv, Unwrapped, LastResize, Evolves;
    if more == [] {
      assert steps + more == steps;
      RegisteredIsInHeap(steps, y, id);
      assert LastResize(more, id) == None by { NothingResized(id); }
    } else {
      var m, step := LastStep(steps + more);
      var fewer := more[..|more| - 1];
      assert (steps + more)[..|steps + more| - 1] == steps + fewer;
      RunsKeepInv(steps + fewer, m);
      RegisteredIsInHeap(steps, y, id);
      RunsEvolve(steps, y, fewer, m);
      SameIdentity(y.reg, m.reg, y.reg.jobs[id]);
      StillRegistered(m, step, y.reg.jobs[id], id);
      ResourcesAreTheLastSet(steps, y, fewer, m, id);
      StepKeepsJob(m, step, id);
      OneMoreResize(more, id);
    }
  }

  lemma SameIdentity(s: State, s': State, ref: JobRef)
    requires Evolves(s, s') && ref < |s.jobHeap|
    ensures ref < |s'.jobHeap| && s'.jobHeap[ref].id == s.jobHeap[ref].id
  {
  }

  lemma NothingResized(id: JobId)
    ensures LastResize([], id) == None
  {
  }

  lemma OneMoreResize(more: seq<Step>, id: JobId)
    requires more != []
    ensures var last := more[|more| - 1];
            LastResize(more, id) == if last.ResizeJob? && last.job == id then Some(last.resources)
                                    else LastResize(more[..|more| - 1], id)
  {
  }

  lemma RegisteredIsInHeap(steps: seq<Step>, y: System, id: JobId)
    requires ReachedBy(steps, y) && id in y.reg.jobs
    ensures y.reg.jobs[id] < |y.reg.jobHeap| && y.reg.jobHeap[y.reg.jobs[id]].id == id
  {
    RunsKeepInv(steps, y);
  }

  // ---------------------------------------------------------------------------------------------------------
  // From the request on
  // ---------------------------------------------------------------------------------------------------------

  /** The thread works on the registration it was started with, or is past the creation of the job. */
  predicate Carries(y: System, t: ThreadId, slurmId: SlurmId, resources: Nodes, wants: Option<Wanted>) {
    && t in y.threads
    && match y.threads[t]
       case Registering(k, r, w) => k == slurmId && r == resources && w == wants
       case AdhocFound(k, r, w, _) => k == slurmId && r == resources && w == wants
       case Ticketed(k, r, w, _, _) => k == slurmId && r == resources && w == wants
       case Created(_, _) => true
       case Registered(_) => true
       case _ => false
  }

  lemma StepKeepsCarries(y: System, step: Step, t: ThreadId, slurmId: SlurmId, resources: Nodes, wants: Option<Wanted>)
    requires Carries(y, t, slurmId, resources, wants) && Enabled(y, step)
    ensures Carries(Apply(y, step), t, slurmId, resources, wants)
  {
  }

  lemma {:induction false} RegistrationGoesOn(steps: seq<Step>, y0: System, more: seq<Step>, y: System,
                                              t: ThreadId, slurmId: SlurmId, resources: Nodes, wants: Option<Wanted>)
    requires ReachedBy(steps, y0) && ReachedBy(steps + more, y) && Carries(y0, t, slurmId, resources, wants)
    ensures Carries(y, t, slurmId, resources, wants)
    decreases |more|
  {
    hide Exec, Enabled, Apply, Carries, Unwrapped;
    if more == [] {
      assert steps + more == steps;
    } else {
      var m, step := LastStep(steps + more);
      var fewer := more[..|more| - 1];
      assert (steps + more)[..|steps + more| - 1] == steps + fewer;
      RegistrationGoesOn(steps, y0, fewer, m, t, slurmId, resources, wants);
      StepKeepsCarries(m, step, t, slurmId, resources, wants);
    }
  }

  lemma CreateStores(y: System, t: ThreadId)
    requires Enabled(y, Create(t)) && y.threads[t].id !in y.reg.jobs
    ensures var Ticketed(slurmId, resources, wants, adhoc, id) := y.threads[t];
            var y' := Apply(y, Create(t));
            && id in y'.reg.jobs && y'.reg.jobs[id] == |y.reg.jobHeap| < |y'.reg.jobHeap|
            && y'.reg.jobHeap[|y.reg.jobHeap|] == Job(id, slurmId, resources, wants, adhoc)
            && slurmId in y'.reg.bySlurm && (slurmId !in y.reg.bySlurm ==> y'.reg.bySlurm[slurmId] == id)
            && (Unwrapped(y.reg) ==> Unwrapped(y'.reg))
  {
  }

  /** In any run, what a registration creates is exactly what its request asked for, linked to the storage it asked for. */
  lemma RegistrationStores(steps: seq<Step>, y0: System, more: seq<Step>, y: System,
                           t: ThreadId, slurmId: SlurmId, resources: Nodes, wants: Option<Wanted>)
    requires ReachedBy(steps, y0) && Enabled(y0, StartRegister(t, slurmId, resources, wants))
    requires ReachedBy(steps + [StartRegister(t, slurmId, resources, wants)] + more, y) && Enabled(y, Create(t))
    ensures var id := y.threads[t].id; var y' := Apply(y, Create(t));
            && id in y'.reg.jobs && y'.reg.jobs[id] == |y.reg.jobHeap| < |y'.reg.jobHeap|
            && ReachedBy(steps + [StartRegister(t, slurmId, resources, wants)] + more + [Create(t)], y')
            && (var job := y'.reg.jobHeap[|y.reg.jobHeap|];
                && job.id == id && job.slurmId == slurmId && job.resources == resources && job.wants == wants
                && (job.adhoc.Some? <==> wants.Some?)
                && (wants.Some? ==>
                      job.adhoc.value < |y'.reg.adhocHeap| && y'.reg.adhocHeap[job.adhoc.value].id == wants.value.id))
  {
    var start := StartRegister(t, slurmId, resources, wants);
    var y1 := Apply(y0, start);
    assert Carries(y1, t, slurmId, resources, wants) && y1.reg == y0.reg;
    assert y.threads[t].Ticketed?;
    RunsKeepInv(steps + [start] + more, y);
    assert ThreadInv(y.reg, y.threads[t]);
    hide Exec, Inv, ThreadInv, ThreadsInv, Carries;
    ExecOneMore(steps, y0, start);
    ExecOneMore(steps + [start] + more, y, Create(t));
    RegistrationGoesOn(steps + [start], y1, more, y, t, slurmId, resources, wants);
    ThreadIsCarried(y, t, slurmId, resources, wants);
    CreateAlwaysSucceeds(steps + [start] + more, y, t);
    CreateStores(y, t);
    CreateKeepsStorages(y, t);
    hide Apply, Enabled;
  }

  lemma CreateKeepsStorages(y: System, t: ThreadId)
    requires Enabled(y, Create(t)) && ThreadInv(y.reg, y.threads[t])
    ensures Apply(y, Create(t)).reg.adhocHeap == y.reg.adhocHeap
    ensures LinkOk(y.reg, y.threads[t].wants, y.threads[t].adhoc)
  {
  }

  lemma ThreadIsCarried(y: System, t: ThreadId, slurmId: SlurmId, resources: Nodes, wants: Option<Wanted>)
    requires Carries(y, t, slurmId, resources, wants) && y.threads[t].Ticketed?
    ensures y.threads[t].slurmId == slurmId && y.threads[t].resources == resources && y.threads[t].wants == wants
  {
  }

  /** A job's resources over its life: those of the last update_job for it, or those it was registered with. */
  lemma ResourcesOverALife(steps: seq<Step>, y0: System, more: seq<Step>, y: System, rest: seq<Step>, y': System,
                           t: ThreadId, slurmId: SlurmId, resources: Nodes, wants: Option<Wanted>)
    requires ReachedBy(steps, y0) && Enabled(y0, StartRegister(t, slurmId, resources, wants))
    requires ReachedBy(steps + [StartRegister(t, slurmId, resources, wants)] + more, y) && Enabled(y, Create(t))
    requires ReachedBy(steps + [StartRegister(t, slurmId, resources, wants)] + more + [Create(t)] + rest, y')
    requires y.threads[t].id in y'.reg.jobs
    ensures var id := y.threads[t].id;
            && y'.reg.jobs[id] == |y.reg.jobHeap| < |y'.reg.jobHeap|
            && y'.reg.jobHeap[|y.reg.jobHeap|].resources == match LastResize(rest, id) case Some(nodes) => nodes case None => resources
  {
    RegistrationStores(steps, y0, more, y, t, slurmId, resources, wants);
    hide Exec, Enabled, Apply, Unwrapped, LastResize;
    ResourcesAreTheLastSet(steps + [StartRegister(t, slurmId, resources, wants)] + more + [Create(t)], Apply(y, Create(t)),
                           rest, y', y.threads[t].id);
  }
}
