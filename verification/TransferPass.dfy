/**
 The scheduler's locked section inside the protocol does what the manager's `Visit` promises, whatever the clients,
 the handlers and Cargo do between two visits.
 */
module TransferPass {
  import opened Transfers
  import opened TransferProtocol
  import opened TransferSafety
  import opened TransferTheorems

  /** The answers recorded for the visited transfers, as the function that `PassDone` asks for. */
  function Readings(seen: map<TransferId, Reading>): TransferId -> Reading {
    id => if id in seen then seen[id] else Reading(Pending, 0.0)
  }

  /** The pass so far, against the map it started from. */
  ghost predicate PassInv(s: State) {
    s.sched.Visiting? ==>
      var Visiting(snapshot, seen, vIds, sent) := s.sched;
      PassDone(snapshot, seen.Keys, Readings(seen), s.live, vIds, sent)
  }

  /** What a pass has done depends only on the answers for the transfers it has visited. */
  lemma OnlyVisitedReadingsMatter(view: map<TransferId, Transfer>, visited: set<TransferId>, f: TransferId -> Reading,
                                  g: TransferId -> Reading, view': map<TransferId, Transfer>, vIds: seq<TransferId>, sent: seq<Sent>)
    requires PassDone(view, visited, f, view', vIds, sent) && forall id :: id in visited ==> f(id) == g(id)
    ensures PassDone(view, visited, g, view', vIds, sent)
  {
  }

  lemma VisitKeepsPass(s: State, id: TransferId, bw: real)
    requires Inv(s) && PassInv(s) && Enabled(s, SchedVisit(id, bw))
    ensures PassInv(Apply(s, SchedVisit(id, bw)))
  {
    var Visiting(snapshot, seen, vIds, sent) := s.sched;
    var r := Reading(s.cargo[snapshot[id].handle], bw);
    var seen' := seen[id := r];
    hide PassDone, Measured, Collected, Signalled, IdsInv, ClaimsInv, CallInv, CollectedInv;
    OnlyVisitedReadingsMatter(snapshot, seen.Keys, Readings(seen), Readings(seen'), s.live, vIds, sent);
    VisitedOneMore(snapshot, seen.Keys, id, Readings(seen'), s.live, vIds, sent);
    assert seen'.Keys == seen.Keys + {id};
  }

  lemma StepKeepsPass(s: State, step: Step)
    requires Inv(s) && PassInv(s) && Enabled(s, step)
    ensures PassInv(Apply(s, step))
  {
    if step.SchedVisit? {
      VisitKeepsPass(s, step.id, step.bw);
    } else {
      OtherStepsLeavePass(s, step);
      hide Inv, Apply, Enabled;
    }
  }

  lemma OtherStepsLeavePass(s: State, step: Step)
    requires Enabled(s, step) && !step.SchedVisit?
    ensures var s' := Apply(s, step);
            s'.sched.Visiting? ==> s'.live == s.live && (s'.sched == s.sched || s'.sched == Visiting(s.live, map[], [], []))
  {
  }

  lemma {:induction false} RunsKeepPass(steps: seq<Step>, s: State)
    requires ReachedBy(steps, s)
    ensures PassInv(s)
  {
    if steps != [] {
      hide Enabled, Apply, Inv, PassInv;
      var before, step := LastStep(steps);
      RunsKeepInv(steps[..|steps| - 1]);
      RunsKeepPass(steps[..|steps| - 1], before);
      StepKeepsPass(before, step);
    } else {
      hide Inv;
    }
  }

  /**
   When the scheduler releases the lock, in any interleaving, it has collected exactly the transfers that Cargo
   reported terminal, each once, sent exactly the signals that the control rule calls for, each once, and measured
   exactly the running ones, as `TransferManager.Visit` promises for a pass that runs alone.
   */
  lemma LockedSectionIsVisit(steps: seq<Step>, s: State)
    requires ReachedBy(steps, s) && Enabled(s, SchedUnlock)
    ensures var Visiting(snapshot, seen, vIds, sent) := s.sched;
            && PassDone(snapshot, snapshot.Keys, Readings(seen), s.live, vIds, sent)
            && SteersToLimits(snapshot, Readings(seen), sent)
            && StoresReadings(snapshot, Readings(seen), s.live)
            && CollectsEnded(snapshot, Readings(seen), vIds)
  {
    RunsKeepPass(steps, s);
    var Visiting(snapshot, seen, vIds, sent) := s.sched;
    PassMeans(snapshot, Readings(seen), s.live, vIds, sent);
  }

  // ---------------------------------------------------------------------------------------------------------
  // A pass misses nothing
  // ---------------------------------------------------------------------------------------------------------

  /** The transfer has ended, and a pass has removed it or is going to. */
  ghost predicate Caught(s: State, id: TransferId) {
    && id in s.created && s.created[id] in s.cargo && s.cargo[s.created[id]].Terminal()
    && (id in s.removed
        || match s.sched
           case Idle => false
           case Visiting(snapshot, seen, _, _) => id in snapshot && (id in seen ==> seen[id].state.Terminal())
           case Removing(_, seen, _, _, _) => id in seen && seen[id].state.Terminal())
  }

  lemma SchedStepKeepsCaught(s: State, step: Step, id: TransferId)
    requires SchedInv(s) && Caught(s, id) && Enabled(s, step) && (step.SchedVisit? || step.SchedUnlock? || step.SchedRemove?)
    ensures Caught(Apply(s, step), id)
  {
  }

  lemma EndKeepsCaught(s: State, id: TransferId)
    requires SchedInv(s) && Caught(s, id) && Enabled(s, SchedEnd)
    ensures id in s.removed
  {
    if id in s.sched.vIds {
      var i :| 0 <= i < |s.sched.vIds| && s.sched.vIds[i] == id;
      assert s.sched.vIds[i] in set i | 0 <= i < s.sched.next :: s.sched.vIds[i];
    }
  }

  lemma OtherStepsKeepCaught(s: State, step: Step, id: TransferId)
    requires ClaimsInv(s) && Caught(s, id) && Enabled(s, step)
    requires !step.SchedVisit? && !step.SchedUnlock? && !step.SchedRemove?
    requires step.SchedEnd? ==> id in s.removed
    ensures Caught(Apply(s, step), id)
  {
  }

  lemma StepKeepsCaught(s: State, step: Step, id: TransferId)
    requires Inv(s) && Caught(s, id) && Enabled(s, step)
    ensures Caught(Apply(s, step), id)
  {
    hide IdsInv, ClaimsInv, SchedInv, CallInv, Caught, Apply;
    if step.SchedVisit? || step.SchedUnlock? || step.SchedRemove? {
      SchedStepKeepsCaught(s, step, id);
    } else {
      if step.SchedEnd? {
        EndKeepsCaught(s, id);
      }
      OtherStepsKeepCaught(s, step, id);
    }
  }

  lemma {:induction false} CaughtStaysCaught(steps: seq<Step>, s: State, more: seq<Step>, s': State, id: TransferId)
    requires ReachedBy(steps, s) && ReachedBy(steps + more, s') && Caught(s, id)
    ensures Caught(s', id)
    decreases |more|
  {
    hide Exec, Enabled, Apply, Inv, Caught;
    if more == [] {
      assert steps + more == steps;
    } else {
      var m, step := LastStep(steps + more);
      var fewer := more[..|more| - 1];
      assert (steps + more)[..|steps + more| - 1] == steps + fewer;
      CaughtStaysCaught(steps, s, fewer, m, id);
      RunsKeepInv(steps + fewer);
      StepKeepsCaught(m, step, id);
    }
  }

  lemma LockCatches(steps: seq<Step>, s: State, id: TransferId)
    requires ReachedBy(steps, s) && Enabled(s, SchedLock)
    requires id in s.live && s.live[id].handle in s.cargo && s.cargo[s.live[id].handle].Terminal()
    ensures Caught(Apply(s, SchedLock), id)
  {
    RunsKeepInv(steps);
  }

  /**
   A pass misses nothing: whatever the interleaving, every live transfer that Cargo has ended when the scheduler takes
   the lock has been removed when that pass is over, and stays removed.
   */
  lemma PassCollectsAllEnded(steps: seq<Step>, s0: State, more: seq<Step>, s: State, id: TransferId)
    requires ReachedBy(steps, s0) && Enabled(s0, SchedLock)
    requires id in s0.live && s0.live[id].handle in s0.cargo && s0.cargo[s0.live[id].handle].Terminal()
    requires ReachedBy(steps + [SchedLock] + more, s) && (Enabled(s, SchedEnd) || s.sched.Idle?)
    ensures id in s.removed && id !in s.live
  {
    LockCatches(steps, s0, id);
    assert Apply(s0, SchedLock).tickets == s0.tickets;
    ExecOneMore(steps, s0, SchedLock);
    hide Exec, Apply;
    CaughtStaysCaught(steps + [SchedLock], Apply(s0, SchedLock), more, s, id);
    RunsKeepInv(steps + [SchedLock] + more);
    if Enabled(s, SchedEnd) {
      EndKeepsCaught(s, id);
    }
  }
}
