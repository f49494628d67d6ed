/** The main results about the transfer protocol, each over every run. */
module TransferTheorems {
  import opened Common
  import opened Transfers
  import opened TransferProtocol
  import opened TransferSafety

  /** `s` is the state after a run in which the identifier counter has not wrapped around. */
  ghost predicate ReachedBy(steps: seq<Step>, s: State) {
    Exec(steps) == Some(s) && s.tickets <= WORD
  }

  // ---------------------------------------------------------------------------------------------------------
  // The scheduler
  // ---------------------------------------------------------------------------------------------------------

  /** Whatever the scheduler removes is still there, and Cargo has finished or failed it. */
  lemma RemovesOnlyEndedTransfers(steps: seq<Step>, s: State)
    requires ReachedBy(steps, s) && Enabled(s, SchedRemove)
    ensures var id := s.sched.vIds[s.sched.next];
            && id in s.live && s.live[id].handle in s.cargo && s.cargo[s.live[id].handle].Terminal()
            && Apply(s, SchedRemove).live == s.live - {id}
            && Apply(s, SchedRemove).removed == s.removed + {id}
  {
    RunsKeepInv(steps);
    var id := s.sched.vIds[s.sched.next];
    assert id in s.sched.vIds && id in s.live;
  }

  /** No step but the scheduler's removal takes a transfer out, and none but an insertion brings one in. */
  lemma OnlySchedulerRemoves(s: State, step: Step)
    requires Enabled(s, step)
    ensures !step.SchedRemove? ==> s.live.Keys <= Apply(s, step).live.Keys
    ensures !step.Insert? ==> Apply(s, step).live.Keys <= s.live.Keys
  {
  }

  /** Conservation: at every moment the created identifiers are the disjoint union of the live and the removed ones. */
  lemma CreatedIsLiveOrRemoved(steps: seq<Step>, s: State)
    requires ReachedBy(steps, s)
    ensures s.created.Keys == s.live.Keys + s.removed && s.live.Keys !! s.removed
  {
    RunsKeepInv(steps);
  }

  /**
   When a pass ends it has removed exactly the identifiers it saw terminal; every other transfer that was created
   and not removed by an earlier pass, in particular any created since the snapshot, is still live.
   */
  lemma PassRemovesExactlyWhatItSaw(steps: seq<Step>, s: State)
    requires ReachedBy(steps, s) && Enabled(s, SchedEnd)
    ensures var v := s.sched;
            var saw := set id | id in v.snapshot && id in v.seen && v.seen[id].state.Terminal();
            && v.seen.Keys == v.snapshot.Keys
            && s.removed == v.removedBefore + saw && v.removedBefore !! saw
            && s.live.Keys == s.created.Keys - v.removedBefore - saw
  {
    RunsKeepInv(steps);
    hide Exec, CallInv, ClaimsInv;
    var v := s.sched;
    var saw := set id | id in v.snapshot && id in v.seen && v.seen[id].state.Terminal();
    SeenAreCollected(s, saw);
  }

  /** At the end of a pass the list of collected identifiers holds exactly those seen terminal. */
  lemma SeenAreCollected(s: State, saw: set<TransferId>)
    requires SchedInv(s) && Enabled(s, SchedEnd)
    requires saw == set id | id in s.sched.snapshot && id in s.sched.seen && s.sched.seen[id].state.Terminal()
    ensures saw == set i | 0 <= i < s.sched.next :: s.sched.vIds[i]
  {
    var v := s.sched;
    var all := set i | 0 <= i < v.next :: v.vIds[i];
    assert forall id :: id in saw <==> id in v.vIds;
    hide SchedInv, CollectedInv, Enabled;
    forall id
      ensures id in v.vIds <==> id in all
    {
      if id in v.vIds {
        var i :| 0 <= i < |v.vIds| && v.vIds[i] == id;
        assert v.vIds[i] in all;
      }
    }
  }

  // ---------------------------------------------------------------------------------------------------------
  // Identifiers
  // ---------------------------------------------------------------------------------------------------------

  /** While the counter has not wrapped around, an insertion always succeeds, with an identifier never used before. */
  lemma InsertAlwaysSucceeds(steps: seq<Step>, s: State, c: Client, limits: seq<nat>)
    requires ReachedBy(steps, s) && Enabled(s, Insert(c, limits))
    ensures var id := s.calls[c].phase.id;
            && id !in s.created && id !in s.live
            && Apply(s, Insert(c, limits)).live == s.live[id := Transfer(s.calls[c].phase.handle, limits, UNMEASURED)]
            && Apply(s, Insert(c, limits)).calls[c].returned != Some(EntityExists)
            && (forall c' :: c' in s.calls && c' != c && s.calls[c'].phase.Claimed? ==> s.calls[c'].phase.id != id)
  {
    RunsKeepInv(steps);
    assert CallInv(s, s.calls[c]);
  }

  /** A run that keeps one transfer live under identifier 0 and has `n` more requests take a ticket. */
  function TicketRun(n: nat): seq<Step> {
    if n == 0 then
      [RegisterJob(0, true), Request(0, 0, true), CheckJob(0), Submit(0, 0), TakeTicket(0), Insert(0, [])]
    else
      TicketRun(n - 1) + [Request(n, 0, true), CheckJob(n), Submit(n, n), TakeTicket(n)]
  }

  lemma ExecOneMore(steps: seq<Step>, s: State, step: Step)
    requires Exec(steps) == Some(s)
    ensures Exec(steps + [step]) == if Enabled(s, step) then Some(Apply(s, step)) else None
  {
    assert (steps + [step])[..|steps|] == steps;
    hide Enabled, Apply;
  }

  /** Runs a fixed list of further steps. */
  function ExecFrom(s: State, steps: seq<Step>): Option<State>
    decreases |steps|
  {
    if steps == [] then Some(s)
    else if Enabled(s, steps[0]) then ExecFrom(Apply(s, steps[0]), steps[1..])
    else None
  }

  lemma {:induction false} ExecSplits(before: seq<Step>, s: State, after: seq<Step>)
    requires Exec(before) == Some(s)
    ensures ExecFrom(s, after).Some? ==> Exec(before + after) == ExecFrom(s, after)
    decreases |after|
  {
    hide Enabled, Apply;
    if after == [] {
      assert before + after == before;
    } else if Enabled(s, after[0]) {
      ExecOneMore(before, s, after[0]);
      ExecSplits(before + [after[0]], Apply(s, after[0]), after[1..]);
      assert before + [after[0]] + after[1..] == before + after;
    }
  }

  /** The shape of the state after `TicketRun(n)`. */
  ghost predicate AfterTickets(s: State, n: nat) {
    && s.tickets == n + 1 && 0 in s.live && LockFree(s)
    && s.jobs == map[0 := true] && 0 in s.knownJobs
    && (forall c :: c in s.calls ==> c <= n)
    && (forall h :: h in s.cargo ==> h <= n)
    && n in s.calls && (n > 0 ==> s.calls[n].phase == Claimed(n, IdOf(n)) && s.calls[n].returned.None?)
  }

  /** The state once client `n` has drawn its ticket. */
  function WithTicket(s: State, n: nat): State {
    s.(calls := s.calls[n := Call(0, true, Claimed(n, IdOf(s.tickets)), None, None)], cargo := s.cargo[n := Pending], tickets := s.tickets + 1)
  }

  lemma TicketStates(s: State, n: nat) returns (s1: State, s2: State, s3: State)
    requires n !in s.calls && n !in s.cargo && 0 in s.jobs && s.jobs[0]
    ensures Enabled(s, Request(n, 0, true)) && s1 == Apply(s, Request(n, 0, true))
    ensures Enabled(s1, CheckJob(n)) && s2 == Apply(s1, CheckJob(n))
    ensures Enabled(s2, Submit(n, n)) && s3 == Apply(s2, Submit(n, n))
    ensures Enabled(s3, TakeTicket(n)) && Apply(s3, TakeTicket(n)) == WithTicket(s, n)
  {
    s1 := s.(calls := s.calls[n := Call(0, true, Requested, None, None)]);
    s2 := s.(calls := s.calls[n := Call(0, true, JobChecked, None, None)]);
    s3 := s.(calls := s.calls[n := Call(0, true, Submitted(n), None, None)], cargo := s.cargo[n := Pending]);
  }

  lemma WithTicketIsAfter(s: State, n: nat)
    requires n > 0 && AfterTickets(s, n - 1)
    ensures AfterTickets(WithTicket(s, n), n)
  {
  }

  lemma OneMoreTicket(s: State, n: nat)
    requires n > 0 && AfterTickets(s, n - 1)
    ensures var more := [Request(n, 0, true), CheckJob(n), Submit(n, n), TakeTicket(n)];
            ExecFrom(s, more).Some? && AfterTickets(ExecFrom(s, more).value, n)
  {
    var s1, s2, s3 := TicketStates(s, n);
    var s4 := WithTicket(s, n);
    WithTicketIsAfter(s, n);
    hide Enabled, Apply, AfterTickets, WithTicket;
    var more := [Request(n, 0, true), CheckJob(n), Submit(n, n), TakeTicket(n)];
    assert more[1..] == [CheckJob(n), Submit(n, n), TakeTicket(n)];
    assert more[1..][1..] == [Submit(n, n), TakeTicket(n)];
    assert more[1..][1..][1..] == [TakeTicket(n)];
    assert more[1..][1..][1..][1..] == [];
    assert ExecFrom(s4, []) == Some(s4);
    assert ExecFrom(s3, more[1..][1..][1..]) == Some(s4);
    assert ExecFrom(s2, more[1..][1..]) == Some(s4);
    assert ExecFrom(s1, more[1..]) == Some(s4);
  }

  lemma FirstTicketStates() returns (s1: State, s2: State, s3: State, s4: State, s5: State, s: State)
    ensures Enabled(INITIAL, RegisterJob(0, true)) && s1 == Apply(INITIAL, RegisterJob(0, true))
    ensures Enabled(s1, Request(0, 0, true)) && s2 == Apply(s1, Request(0, 0, true))
    ensures Enabled(s2, CheckJob(0)) && s3 == Apply(s2, CheckJob(0))
    ensures Enabled(s3, Submit(0, 0)) && s4 == Apply(s3, Submit(0, 0))
    ensures Enabled(s4, TakeTicket(0)) && s5 == Apply(s4, TakeTicket(0))
    ensures Enabled(s5, Insert(0, [])) && s == Apply(s5, Insert(0, []))
    ensures AfterTickets(s, 0)
    ensures s.calls[0] == Call(0, true, Polling, None, Some(Tx(0, 0))) && s.cargo == map[0 := Pending] && s.live[0].handle == 0
  {
    s1 := Apply(INITIAL, RegisterJob(0, true));
    s2 := Apply(s1, Request(0, 0, true));
    s3 := Apply(s2, CheckJob(0));
    s4 := Apply(s3, Submit(0, 0));
    s5 := Apply(s4, TakeTicket(0));
    s := Apply(s5, Insert(0, []));
  }

  lemma FirstTicket() returns (s: State)
    ensures Exec(TicketRun(0)) == Some(s) && AfterTickets(s, 0)
    ensures s.calls[0] == Call(0, true, Polling, None, Some(Tx(0, 0))) && s.cargo == map[0 := Pending] && s.live[0].handle == 0
  {
    var s1, s2, s3, s4, s5, s6 := FirstTicketStates();
    hide Enabled, Apply, AfterTickets;
    s := s6;
    var run := [];
    ExecOneMore(run, INITIAL, RegisterJob(0, true));
    run := run + [RegisterJob(0, true)];
    ExecOneMore(run, s1, Request(0, 0, true));
    run := run + [Request(0, 0, true)];
    ExecOneMore(run, s2, CheckJob(0));
    run := run + [CheckJob(0)];
    ExecOneMore(run, s3, Submit(0, 0));
    run := run + [Submit(0, 0)];
    ExecOneMore(run, s4, TakeTicket(0));
    run := run + [TakeTicket(0)];
    ExecOneMore(run, s5, Insert(0, []));
    assert run + [Insert(0, [])] == TicketRun(0);
  }

  lemma {:induction false} TicketRunReaches(n: nat) returns (s: State)
    ensures Exec(TicketRun(n)) == Some(s) && AfterTickets(s, n)
  {
    if n == 0 {
      s := FirstTicket();
    } else {
      var before := TicketRunReaches(n - 1);
      var more := [Request(n, 0, true), CheckJob(n), Submit(n, n), TakeTicket(n)];
      OneMoreTicket(before, n);
      ExecSplits(TicketRun(n - 1), before, more);
      s := ExecFrom(before, more).value;
    }
  }

  /**
   The bound is tight: once 2^64 identifiers have been handed out, a run exists in which the next insertion finds
   its identifier taken and the client is told that the transfer already exists.
   */
  lemma WrappedCounterCollides() returns (steps: seq<Step>, s: State, c: Client)
    ensures Exec(steps) == Some(s) && s.tickets == WORD + 1
    ensures c in s.calls && s.calls[c].returned == Some(EntityExists)
  {
    var before := TicketRunReaches(WORD);
    c := WORD;
    assert IdOf(WORD) == 0;
    ExecOneMore(TicketRun(WORD), before, Insert(c, []));
    steps, s := TicketRun(WORD) + [Insert(c, [])], Apply(before, Insert(c, []));
  }

  // ---------------------------------------------------------------------------------------------------------
  // The waiting client
  // ---------------------------------------------------------------------------------------------------------

  /**
   A waiting client that was told ADM_SUCCESS created a transfer, and that transfer has reached a terminal state,
   unless its job has been removed. Success also covers transfers that failed.
   */
  lemma SuccessMeansEndedOrJobRemoved(steps: seq<Step>, s: State, c: Client)
    requires ReachedBy(steps, s) && c in s.calls && s.calls[c].wait && s.calls[c].returned == Some(Success)
    ensures s.calls[c].tx.Some? && (Ended(s, s.calls[c].tx.value) || s.calls[c].job !in s.jobs)
  {
    RunsKeepInv(steps);
    assert CallInv(s, s.calls[c]);
  }

  /** The client has been told success, and its transfer has not ended. */
  predicate ToldTooEarly(s: State, c: Client) {
    c in s.calls && s.calls[c].returned == Some(Success) && s.calls[c].tx.Some? && !Ended(s, s.calls[c].tx.value)
  }

  /**
   The only way to be told success too early: the client's query is answered while its job is gone, because the
   missing job is reported with the same code as a collected transfer.
   */
  lemma EarlySuccessExactly(steps: seq<Step>, s: State, step: Step, c: Client)
    requires ReachedBy(steps, s) && Enabled(s, step)
    requires Active(s, c) && s.calls[c].wait && s.calls[c].tx.Some?
    ensures ToldTooEarly(Apply(s, step), c) <==>
              step == QueryJob(c) && s.calls[c].job !in s.jobs && !Ended(s, s.calls[c].tx.value)
  {
    RunsKeepInv(steps);
    assert CallInv(s, s.calls[c]);
    hide Exec, Inv, ClaimsInv, SchedInv, CollectedInv;
    if (step.QueryJob? || step.QueryFind? || step.QueryStatus?) && step.c == c {
    } else {
      OthersDoNotAnswer(s, step, c);
      hide Apply, Enabled, CallInv, IdsInv;
    }
  }

  /** Only its own query steps make a polling call return success. */
  lemma OthersDoNotAnswer(s: State, step: Step, c: Client)
    requires Enabled(s, step) && Active(s, c) && CallInv(s, s.calls[c]) && s.calls[c].tx.Some? && IdsInv(s)
    requires s.calls[c].wait && !((step.QueryJob? || step.QueryFind? || step.QueryStatus?) && step.c == c)
    ensures !ToldTooEarly(Apply(s, step), c)
  {
  }

  /** One iteration of the poll loop when nothing else happens meanwhile. */
  function Poll(s: State, c: Client): (s': State)
    requires Enabled(s, QueryJob(c)) && s.calls[c].tx.Some? && LockFree(s)
    ensures c in s'.calls
  {
    var s1 := Apply(s, QueryJob(c));
    if !Enabled(s1, QueryFind(c)) then s1
    else
      var s2 := Apply(s1, QueryFind(c));
      if Enabled(s2, QueryStatus(c)) then Apply(s2, QueryStatus(c)) else s2
  }

  /** The three lookups of a query, one by one. */
  lemma QuerySteps(s: State, c: Client)
    ensures Enabled(s, QueryJob(c)) && s.calls[c].job in s.jobs && s.jobs[s.calls[c].job] ==>
              Apply(s, QueryJob(c)) == SetCall(s, c, s.calls[c].(phase := QueryJobChecked))
    ensures Enabled(s, QueryJob(c)) && s.calls[c].job !in s.jobs ==>
              Apply(s, QueryJob(c)) == SetCall(s, c, Finish(s.calls[c], Success))
    ensures Enabled(s, QueryFind(c)) && s.calls[c].tx.value.id in s.live ==>
              Apply(s, QueryFind(c)) == SetCall(s, c, s.calls[c].(phase := QueryFound(s.live[s.calls[c].tx.value.id].handle)))
    ensures Enabled(s, QueryFind(c)) && s.calls[c].tx.value.id !in s.live ==>
              Apply(s, QueryFind(c)) == SetCall(s, c, Finish(s.calls[c], Success))
    ensures Enabled(s, QueryStatus(c)) ==>
              Apply(s, QueryStatus(c)) ==
                SetCall(s, c, if s.cargo[s.calls[c].phase.handle].Terminal() then Finish(s.calls[c], Success)
                              else s.calls[c].(phase := Polling))
  {
  }

  lemma QueryGuards(s: State, c: Client)
    ensures Enabled(s, QueryJob(c)) <==> Active(s, c) && s.calls[c].phase.Polling?
    ensures Enabled(s, QueryFind(c)) <==>
              Active(s, c) && s.calls[c].phase.QueryJobChecked? && s.calls[c].tx.Some? && LockFree(s)
    ensures Enabled(s, QueryStatus(c)) <==>
              Active(s, c) && s.calls[c].phase.QueryFound? && s.calls[c].phase.handle in s.cargo
  {
  }

  lemma PollOutcome(s: State, c: Client)
    requires Inv(s) && Enabled(s, QueryJob(c)) && LockFree(s)
    ensures s.calls[c].tx.Some?
    ensures var call := Poll(s, c).calls[c];
            if Ended(s, s.calls[c].tx.value) || s.calls[c].job !in s.jobs then call.returned == Some(Success)
            else call.returned.None? && call.phase == Polling
  {
    assert CallInv(s, s.calls[c]);
    hide Enabled, Apply, ClaimsInv, SchedInv;
    var tx := s.calls[c].tx.value;
    QuerySteps(s, c);
    QueryGuards(s, c);
    var s1 := Apply(s, QueryJob(c));
    QuerySteps(s1, c);
    QueryGuards(s1, c);
    if s.calls[c].job in s.jobs {
      var s2 := Apply(s1, QueryFind(c));
      QuerySteps(s2, c);
      QueryGuards(s2, c);
      assert if tx.id in s.live then s.live[tx.id].handle == tx.handle else tx.id in s.removed;
    }
  }

  /**
   A poll ends the wait, and then with success, exactly when the transfer is terminal, whether or not the scheduler
   has collected it yet, or the job is gone; otherwise the client goes on polling.
   */
  lemma PollEndsExactly(steps: seq<Step>, s: State, c: Client)
    requires ReachedBy(steps, s) && Enabled(s, QueryJob(c)) && LockFree(s)
    ensures s.calls[c].tx.Some?
    ensures var call := Poll(s, c).calls[c];
            if Ended(s, s.calls[c].tx.value) || s.calls[c].job !in s.jobs then call.returned == Some(Success)
            else call.returned.None? && call.phase == Polling
  {
    RunsKeepInv(steps);
    hide Inv, Exec, Enabled, Poll;
    PollOutcome(s, c);
  }

  // ---------------------------------------------------------------------------------------------------------
  // Errors reach the client
  // ---------------------------------------------------------------------------------------------------------

  lemma StepKeepsReturned(s: State, step: Step, c: Client)
    requires Enabled(s, step) && c in s.calls && s.calls[c].returned.Some?
    ensures c in Apply(s, step).calls && Apply(s, step).calls[c].returned == s.calls[c].returned
  {
  }

  /** What a client has been told is final, whatever its handler or anybody else goes on to do. */
  lemma {:induction false} ReturnedIsFinal(steps: seq<Step>, s: State, more: seq<Step>, s': State, c: Client)
    requires Exec(steps) == Some(s) && Exec(steps + more) == Some(s') && c in s.calls && s.calls[c].returned.Some?
    ensures c in s'.calls && s'.calls[c].returned == s.calls[c].returned
    decreases |more|
  {
    hide Exec, Enabled, Apply;
    if more == [] {
      assert steps + more == steps;
    } else {
      var m, step := LastStep(steps + more);
      var fewer := more[..|more| - 1];
      assert (steps + more)[..|steps + more| - 1] == steps + fewer;
      ReturnedIsFinal(steps, s, fewer, m, c);
      StepKeepsReturned(m, step, c);
    }
  }

  lemma FailureReturns(s: State, c: Client)
    requires Enabled(s, RpcFails(c))
    ensures c in Apply(s, RpcFails(c)).calls && Apply(s, RpcFails(c)).calls[c].returned == Some(Other)
  {
  }

  /** An RPC that fails, creation or query, is reported as its error and never becomes a success. */
  lemma FailedRpcIsReported(steps: seq<Step>, s: State, more: seq<Step>, s': State, c: Client)
    requires Exec(steps) == Some(s) && Enabled(s, RpcFails(c)) && Exec(steps + [RpcFails(c)] + more) == Some(s')
    ensures c in s'.calls && s'.calls[c].returned == Some(Other)
  {
    FailureReturns(s, c);
    ExecOneMore(steps, s, RpcFails(c));
    hide Exec, Enabled, Apply;
    ReturnedIsFinal(steps + [RpcFails(c)], Apply(s, RpcFails(c)), more, s', c);
  }

  /** The creation is turned away, with which error, exactly if the job is unknown or has no storage. */
  lemma TurnedAwayExactly(s: State, c: Client)
    requires Enabled(s, CheckJob(c)) && Active(s, c)
    ensures var call := Apply(s, CheckJob(c)).calls[c];
            && (call.returned == Some(NoSuchEntity) <==> s.calls[c].job !in s.jobs)
            && (call.returned == Some(NoResources) <==> s.calls[c].job in s.jobs && !s.jobs[s.calls[c].job])
            && (call.returned.None? <==> s.calls[c].job in s.jobs && s.jobs[s.calls[c].job])
  {
  }

  /** A run in which the job is removed under a waiting client: it is told success while the transfer is running. */
  lemma RemovedJobEndsWaitEarly() returns (steps: seq<Step>, s: State)
    ensures Exec(steps) == Some(s) && s.tickets == 1
    ensures 0 in s.calls && s.calls[0].wait && s.calls[0].returned == Some(Success)
    ensures s.calls[0].tx == Some(Tx(0, 0)) && 0 in s.cargo && s.cargo[0] == Running && 0 in s.live
  {
    var before := FirstTicket();
    var s1 := Apply(before, CargoProgress(0, Running));
    var s2 := Apply(s1, RemoveJob(0));
    s := Apply(s2, QueryJob(0));
    steps := TicketRun(0) + [CargoProgress(0, Running)];
    ExecOneMore(TicketRun(0), before, CargoProgress(0, Running));
    ExecOneMore(steps, s1, RemoveJob(0));
    ExecOneMore(steps + [RemoveJob(0)], s2, QueryJob(0));
    steps := steps + [RemoveJob(0)] + [QueryJob(0)];
  }

  lemma FailedStates(before: State) returns (s1: State, s2: State, s3: State, s: State)
    requires AfterTickets(before, 0) && before.calls[0] == Call(0, true, Polling, None, Some(Tx(0, 0))) && before.cargo == map[0 := Pending]
    requires before.live[0].handle == 0
    ensures Enabled(before, CargoProgress(0, CargoState.Failed)) && s1 == Apply(before, CargoProgress(0, CargoState.Failed))
    ensures Enabled(s1, QueryJob(0)) && s2 == Apply(s1, QueryJob(0))
    ensures Enabled(s2, QueryFind(0)) && s3 == Apply(s2, QueryFind(0))
    ensures Enabled(s3, QueryStatus(0)) && s == Apply(s3, QueryStatus(0))
    ensures 0 in s.calls && s.calls[0].wait && s.calls[0].returned == Some(Success)
    ensures s.calls[0].tx == Some(Tx(0, 0)) && 0 in s.cargo && s.cargo[0] == CargoState.Failed && s.tickets == 1 && s.jobs == map[0 := true]
  {
    s1 := Apply(before, CargoProgress(0, CargoState.Failed));
    s2 := Apply(s1, QueryJob(0));
    s3 := Apply(s2, QueryFind(0));
    s := Apply(s3, QueryStatus(0));
  }

  /** A run in which the transfer fails, its job stays registered, and the waiting client is told success. */
  lemma FailedTransferEndsWait() returns (steps: seq<Step>, s: State)
    ensures Exec(steps) == Some(s) && s.tickets == 1 && s.jobs == map[0 := true]
    ensures 0 in s.calls && s.calls[0].wait && s.calls[0].returned == Some(Success)
    ensures s.calls[0].tx == Some(Tx(0, 0)) && 0 in s.cargo && s.cargo[0] == CargoState.Failed
  {
    var before := FirstTicket();
    var s1, s2, s3, last := FailedStates(before);
    s := last;
    hide Enabled, Apply, AfterTickets;
    ExecOneMore(TicketRun(0), before, CargoProgress(0, CargoState.Failed));
    steps := TicketRun(0) + [CargoProgress(0, CargoState.Failed)];
    ExecOneMore(steps, s1, QueryJob(0));
    steps := steps + [QueryJob(0)];
    ExecOneMore(steps, s2, QueryFind(0));
    steps := steps + [QueryFind(0)];
    ExecOneMore(steps, s3, QueryStatus(0));
    steps := steps + [QueryStatus(0)];
  }

  /** The guards that only say where a thread's data lives never hold a thread up. */
  lemma NothingIsStuck(steps: seq<Step>, s: State)
    requires ReachedBy(steps, s)
    ensures forall c :: Active(s, c) && s.calls[c].phase.QueryJobChecked? && LockFree(s) ==> Enabled(s, QueryFind(c))
    ensures forall c :: Active(s, c) && s.calls[c].phase.QueryFound? ==> Enabled(s, QueryStatus(c))
    ensures s.sched.Visiting? ==>
              forall id, bw :: id in s.sched.snapshot && id !in s.sched.seen ==> Enabled(s, SchedVisit(id, bw))
  {
    RunsKeepInv(steps);
    hide Exec, ClaimsInv, Enabled;
    forall c | Active(s, c) && (s.calls[c].phase.QueryJobChecked? || s.calls[c].phase.QueryFound?)
      ensures s.calls[c].phase.QueryJobChecked? && LockFree(s) ==> Enabled(s, QueryFind(c))
      ensures s.calls[c].phase.QueryFound? ==> Enabled(s, QueryStatus(c))
    {
      assert CallInv(s, s.calls[c]);
      QueryGuards(s, c);
    }
    VisitsAreEnabled(s);
  }

  lemma VisitsAreEnabled(s: State)
    requires IdsInv(s) && SchedInv(s)
    ensures s.sched.Visiting? ==>
              forall id, bw :: id in s.sched.snapshot && id !in s.sched.seen ==> Enabled(s, SchedVisit(id, bw))
  {
  }
}
