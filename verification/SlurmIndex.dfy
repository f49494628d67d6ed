/** The Slurm index of the job manager: always sound, and complete exactly as long as live jobs do not share Slurm ids. */
module SlurmIndex {
  import opened Common
  import opened Registry
  import opened RegistryProtocol
  import opened RegistryTheorems

  /** Every live job's Slurm id is in the index. */
  ghost predicate IndexComplete(s: State)
    requires RefsOk(s)
  {
    forall id :: id in s.jobs ==> s.jobHeap[s.jobs[id]].slurmId in s.bySlurm
  }

  /** No two live jobs share a Slurm id. */
  ghost predicate DistinctSlurmIds(s: State)
    requires RefsOk(s)
  {
    forall id, id' :: id in s.jobs && id' in s.jobs && id != id' ==> s.jobHeap[s.jobs[id]].slurmId != s.jobHeap[s.jobs[id']].slurmId
  }

  /**
   In every run, an index hit leads to a live job that carries the Slurm id looked up: the second lookup of
   find_by_slurm_id never fails after a hit, and without a hit the answer is no_such_entity.
   */
  lemma IndexHitIsLive(steps: seq<Step>, y: System, slurmId: SlurmId)
    requires ReachedBy(steps, y)
    ensures match FindBySlurmId(y.reg, slurmId)
            case Value(ref) => slurmId in y.reg.bySlurm && Live(y.reg, ref) && y.reg.jobHeap[ref].slurmId == slurmId
            case Unexpected(ec) => slurmId !in y.reg.bySlurm && ec == NoSuchEntity
  {
    RunsKeepInv(steps, y);
  }

  /** Removing a job keeps the index complete exactly when no other live job carries its Slurm id. */
  lemma EraseKeepsIndexExactly(s: State, id: JobId)
    requires StateInv(s) && IndexComplete(s) && id in s.jobs
    ensures RefsOk(EraseJob(s, id).0)
    ensures IndexComplete(EraseJob(s, id).0) <==>
              forall id' :: id' in s.jobs && id' != id ==> s.jobHeap[s.jobs[id']].slurmId != s.jobHeap[s.jobs[id]].slurmId
  {
    var s' := EraseJob(s, id).0;
    forall id' | id' in s.jobs && id' != id
      ensures id' in s'.jobs
      ensures s'.jobHeap[s'.jobs[id']].slurmId in s'.bySlurm <==> s.jobHeap[s.jobs[id']].slurmId != s.jobHeap[s.jobs[id]].slurmId
    {
    }
  }

  lemma CreateKeepsIndex(s: State, id: JobId, slurmId: SlurmId, resources: Nodes, wants: Option<Wanted>, adhoc: Option<AdhocRef>)
    requires RefsOk(s) && IndexComplete(s)
    ensures var s' := InsertJob(s, id, slurmId, resources, wants, adhoc).0; RefsOk(s') && IndexComplete(s')
    ensures DistinctSlurmIds(s) && (forall id' :: id' in s.jobs ==> s.jobHeap[s.jobs[id']].slurmId != slurmId) ==>
              DistinctSlurmIds(InsertJob(s, id, slurmId, resources, wants, adhoc).0)
  {
  }

  /** A registration's creation does not reuse the Slurm id of a live job. */
  predicate Fresh(y: System, step: Step) {
    step.Create? && Enabled(y, step) ==> forall id :: id in y.reg.jobs ==> y.reg.jobHeap[y.reg.jobs[id]].slurmId != y.threads[step.t].slurmId
  }

  ghost predicate FreshRun(steps: seq<Step>) {
    steps == [] ||
    (var last := |steps| - 1;
     && FreshRun(steps[..last])
     && (Exec(steps[..last]).Some? ==> Fresh(Exec(steps[..last]).value, steps[last])))
  }

  ghost predicate IndexInv(s: State) {
    RefsOk(s) && IndexComplete(s) && DistinctSlurmIds(s)
  }

  /** The index and the Slurm ids are untouched. */
  lemma SameIndexIsKept(s: State, s': State)
    requires IndexInv(s) && s'.jobs == s.jobs && s'.bySlurm == s.bySlurm && |s'.jobHeap| == |s.jobHeap| && RefsOk(s')
    requires forall i :: 0 <= i < |s.jobHeap| ==> s'.jobHeap[i].slurmId == s.jobHeap[i].slurmId
    ensures IndexInv(s')
  {
  }

  lemma OtherStepsKeepIndex(y: System, step: Step)
    requires IndexInv(y.reg) && Enabled(y, step) && !step.Create? && !step.Erase?
    ensures IndexInv(Apply(y, step).reg)
  {
    hide IndexInv;
    var s' := Apply(y, step).reg;
    SameIndexIsKept(y.reg, s');
  }

  lemma StepKeepsIndex(y: System, step: Step)
    requires StateInv(y.reg) && IndexInv(y.reg) && Enabled(y, step) && Fresh(y, step)
    ensures IndexInv(Apply(y, step).reg)
  {
    match step
    case Create(t) =>
      var th := y.threads[t];
      CreateKeepsIndex(y.reg, th.id, th.slurmId, th.resources, th.wants, th.adhoc);
    case Erase(t, id) =>
      if id in y.reg.jobs {
        EraseKeepsIndexExactly(y.reg, id);
      }
    case _ => OtherStepsKeepIndex(y, step);
  }

  lemma {:induction false} FreshRunsKeepIndex(steps: seq<Step>, y: System)
    requires ReachedBy(steps, y) && FreshRun(steps)
    ensures IndexInv(y.reg)
  {
    if steps != [] {
      hide Enabled, Apply, StateInv, ThreadsInv, IndexInv, Fresh;
      var before, step := LastStep(steps);
      RunsKeepInv(steps[..|steps| - 1], before);
      FreshRunsKeepIndex(steps[..|steps| - 1], before);
      StepKeepsIndex(before, step);
    }
  }

  /** If no registration reuses a live job's Slurm id, the index answers as a scan of the live jobs would, for every Slurm id. */
  lemma FindAgreesWithScan(steps: seq<Step>, y: System, slurmId: SlurmId)
    requires ReachedBy(steps, y) && FreshRun(steps)
    ensures forall ref: JobRef :: FindBySlurmId(y.reg, slurmId) == Value(ref) <==> Live(y.reg, ref) && y.reg.jobHeap[ref].slurmId == slurmId
    ensures FindBySlurmId(y.reg, slurmId).Unexpected? <==>
              forall ref :: 0 <= ref < |y.reg.jobHeap| && Live(y.reg, ref) ==> y.reg.jobHeap[ref].slurmId != slurmId
  {
    RunsKeepInv(steps, y);
    FreshRunsKeepIndex(steps, y);
    IndexHitIsLive(steps, y, slurmId);
    forall ref: JobRef | Live(y.reg, ref) && y.reg.jobHeap[ref].slurmId == slurmId
      ensures FindBySlurmId(y.reg, slurmId) == Value(ref)
    {
      var id := y.reg.jobHeap[ref].id;
      assert id in y.reg.jobs && slurmId in y.reg.bySlurm;
      assert y.reg.bySlurm[slurmId] == id;
    }
  }

  /** The condition is needed: of two jobs registered under one Slurm id, removing the first hides the second. */
  lemma SharedSlurmIdHidesJob() returns (s: State)
    ensures var s1 := RegisterJob(EMPTY, 7, [], None).0;
            var s2 := RegisterJob(s1, 7, [], None).0;
            s == RemoveJob(s2, 0).0
    ensures Live(s, 1) && s.jobHeap[1].slurmId == 7 && FindBySlurmId(s, 7) == Unexpected(NoSuchEntity)
  {
    var s1 := RegisterJob(EMPTY, 7, [], None).0;
    var s2 := RegisterJob(s1, 7, [], None).0;
    s := RemoveJob(s2, 0).0;
  }
}
