/** remove_job among the other handlers: what it reports when the storage of the job is deregistered meanwhile. */
module JobRemovals {
  import opened Common
  import opened Registry
  import opened RegistryProtocol
  import opened RegistryTheorems
  import opened AdhocUpdates

  /** The thread has erased the job and not yet cleared its slot, or is done. */
  predicate Removing(y: System, t: ThreadId, job: JobRef) {
    t in y.threads && (y.threads[t] == Erased(job) || y.threads[t].Removed?)
  }

  lemma StepKeepsRemoving(y: System, step: Step, t: ThreadId, job: JobRef)
    requires Removing(y, t, job) && Enabled(y, step)
    ensures Removing(Apply(y, step), t, job)
  {
  }

  lemma {:induction false} RemovalGoesOn(steps: seq<Step>, y0: System, more: seq<Step>, y: System, t: ThreadId, job: JobRef)
    requires ReachedBy(steps, y0) && ReachedBy(steps + more, y) && Removing(y0, t, job)
    ensures Removing(y, t, job)
    decreases |more|
  {
    hide Exec, Enabled, Apply, Removing, Unwrapped;
    if more == [] {
      assert steps + more == steps;
    } else {
      var m, step := LastStep(steps + more);
      var fewer := more[..|more| - 1];
      assert (steps + more)[..|steps + more| - 1] == steps + fewer;
      RemovalGoesOn(steps, y0, fewer, m, t, job);
      StepKeepsRemoving(m, step, t, job);
    }
  }

  lemma ErasedJob(steps: seq<Step>, y: System, t: ThreadId, id: JobId)
    requires ReachedBy(steps, y) && Enabled(y, Erase(t, id)) && id in y.reg.jobs
    ensures var y1 := Apply(y, Erase(t, id));
            && y1.threads[t] == Erased(y.reg.jobs[id]) && ReachedBy(steps + [Erase(t, id)], y1)
            && y1.reg.adhocs == y.reg.adhocs && y1.reg.adhocHeap == y.reg.adhocHeap && y1.reg.jobHeap == y.reg.jobHeap
            && id !in y1.reg.jobs && y.reg.jobs[id] < |y.reg.jobHeap|
    ensures var wants := y.reg.jobHeap[y.reg.jobs[id]].wants; wants.Some? ==> Known(y.reg, wants.value.id)
  {
    ExecOneMore(steps, y, Erase(t, id));
    RunsKeepInv(steps, y);
    var job := y.reg.jobHeap[y.reg.jobs[id]];
    assert LinkOk(y.reg, job.wants, job.adhoc);
    if job.wants.Some? {
      assert 0 <= job.adhoc.value < |y.reg.adhocHeap| && y.reg.adhocHeap[job.adhoc.value].id == job.wants.value.id;
    }
    hide Exec;
  }

  lemma UnlistReplies(y: System, t: ThreadId)
    requires Enabled(y, Unlist(t))
    ensures var wants := y.reg.jobHeap[y.threads[t].job].wants;
            Apply(y, Unlist(t)).threads[t] ==
              Removed(if wants.None? || wants.value.id in y.reg.adhocs then Success else NoSuchEntity)
  {
  }

  /**
   In any run, the removal of a live job removes it, and reports success exactly when the job required no storage, or
   one that was registered and that nobody has removed before the removal is through.
   */
  lemma ReportsSuccessExactly(steps: seq<Step>, y0: System, more: seq<Step>, y: System, t: ThreadId, id: JobId)
    requires ReachedBy(steps, y0) && Enabled(y0, Erase(t, id)) && id in y0.reg.jobs
    requires ReachedBy(steps + [Erase(t, id)] + more, y) && Enabled(y, Unlist(t))
    ensures id !in Apply(y0, Erase(t, id)).reg.jobs && y0.reg.jobs[id] < |y0.reg.jobHeap|
    ensures var wants := y0.reg.jobHeap[y0.reg.jobs[id]].wants;
            Apply(y, Unlist(t)).threads[t] ==
              Removed(if wants.None? || (wants.value.id in y0.reg.adhocs && DropAdhoc(wants.value.id) !in more)
                      then Success else NoSuchEntity)
  {
    var y1 := Apply(y0, Erase(t, id));
    var job := y0.reg.jobs[id];
    assert y.threads[t].Erased?;
    ErasedJob(steps, y0, t, id);
    UnlistReplies(y, t);
    assert Removing(y1, t, job);
    RemovalGoesOn(steps + [Erase(t, id)], y1, more, y, t, job);
    assert y.threads[t] == Erased(job);
    hide Exec, Enabled, Apply, Known, Unwrapped, Removing;
    RunsEvolve(steps + [Erase(t, id)], y1, more, y);
    var wants := y0.reg.jobHeap[job].wants;
    assert y.reg.jobHeap[job].wants == wants;
    if wants.Some? {
      SameStoragesKnown(y0.reg, y1.reg, wants.value.id);
      RegisteredUntilDropped(steps + [Erase(t, id)], y1, more, y, wants.value.id);
    }
  }

  lemma SameStoragesKnown(s: State, s': State, id: AdhocId)
    requires Known(s, id) && s'.adhocHeap == s.adhocHeap
    ensures Known(s', id)
  {
  }
}
