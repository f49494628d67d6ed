/** What every run of the transfer protocol keeps, and what its clients may conclude. */
module TransferSafety {
  import opened Common
  import opened Transfers
  import opened TransferProtocol

  lemma CallStepKeepsClaims(s: State, c: Client, call: Call)
    requires ClaimsInv(s)
    requires call.phase.Submitted? ==> call.phase.handle in s.cargo
    requires call.phase.Claimed? ==> c in s.calls && s.calls[c].phase == call.phase
    ensures ClaimsInv(SetCall(s, c, call))
  {
  }

  lemma CallStepKeepsRest(s: State, c: Client, call: Call)
    requires IdsInv(s) && SchedInv(s)
    ensures IdsInv(SetCall(s, c, call)) && SchedInv(SetCall(s, c, call))
  {
  }

  lemma CallStepKeepsCalls(s: State, c: Client, call: Call)
    requires CallInv(s, call) && forall c :: c in s.calls ==> CallInv(s, s.calls[c])
    ensures var s' := SetCall(s, c, call); forall c :: c in s'.calls ==> CallInv(s', s'.calls[c])
  {
  }

  /** A step that only moves one call on, without handing it an identifier. */
  lemma CallStepKeepsInv(s: State, c: Client, call: Call)
    requires Inv(s) && CallInv(s, call)
    requires call.phase.Submitted? ==> call.phase.handle in s.cargo
    requires call.phase.Claimed? ==> c in s.calls && s.calls[c].phase == call.phase
    ensures Inv(SetCall(s, c, call))
  {
    hide IdsInv, ClaimsInv, SchedInv, CallInv;
    CallStepKeepsClaims(s, c, call);
    CallStepKeepsRest(s, c, call);
    CallStepKeepsCalls(s, c, call);
  }

  lemma JobStepKeepsInv(s: State, step: Step)
    requires Inv(s) && Enabled(s, step) && (step.RegisterJob? || step.RemoveJob?)
    ensures Inv(Apply(s, step))
  {
    var s' := Apply(s, step);
    forall c | c in s'.calls
      ensures CallInv(s', s'.calls[c])
    {
      assert CallInv(s, s.calls[c]);
    }
  }

  lemma CargoKeepsInv(s: State, handle: Handle, state: CargoState)
    requires Inv(s) && (handle !in s.cargo || !s.cargo[handle].Terminal())
    ensures Inv(s.(cargo := s.cargo[handle := state]))
  {
    var s' := s.(cargo := s.cargo[handle := state]);
    forall c | c in s'.calls
      ensures CallInv(s', s'.calls[c])
    {
      assert CallInv(s, s.calls[c]);
    }
  }

  lemma SubmitKeepsInv(s: State, c: Client, handle: Handle)
    requires Inv(s) && Enabled(s, Submit(c, handle))
    ensures Inv(Apply(s, Submit(c, handle)))
  {
    CargoKeepsInv(s, handle, Pending);
    var s' := s.(cargo := s.cargo[handle := Pending]);
    assert CallInv(s', s'.calls[c]);
    CallStepKeepsInv(s', c, s.calls[c].(phase := Submitted(handle)));
  }

  lemma TicketKeepsRest(s: State, c: Client)
    requires IdsInv(s) && ClaimsInv(s) && SchedInv(s) && Enabled(s, TakeTicket(c)) && s.tickets < WORD
    ensures var s' := Apply(s, TakeTicket(c)); IdsInv(s') && ClaimsInv(s') && SchedInv(s')
  {
  }

  lemma TicketKeepsCalls(s: State, c: Client)
    requires Enabled(s, TakeTicket(c)) && forall c :: c in s.calls ==> CallInv(s, s.calls[c])
    ensures var s' := Apply(s, TakeTicket(c)); forall c :: c in s'.calls ==> CallInv(s', s'.calls[c])
  {
    var s' := Apply(s, TakeTicket(c));
    assert CallInv(s, s.calls[c]);
    forall c' | c' in s'.calls
      ensures CallInv(s', s'.calls[c'])
    {
      assert c' != c ==> CallInv(s, s.calls[c']);
    }
  }

  lemma TicketKeepsInv(s: State, c: Client)
    requires Inv(s) && Enabled(s, TakeTicket(c)) && Apply(s, TakeTicket(c)).tickets <= WORD
    ensures Inv(Apply(s, TakeTicket(c)))
  {
    hide IdsInv, ClaimsInv, SchedInv, CallInv;
    TicketKeepsRest(s, c);
    TicketKeepsCalls(s, c);
  }

  lemma InsertKeepsIds(s: State, c: Client, limits: seq<nat>)
    requires IdsInv(s) && ClaimsInv(s) && Enabled(s, Insert(c, limits))
    ensures var s' := Apply(s, Insert(c, limits)); IdsInv(s') && ClaimsInv(s')
  {
  }

  lemma InsertKeepsSched(s: State, c: Client, limits: seq<nat>)
    requires IdsInv(s) && ClaimsInv(s) && SchedInv(s) && Enabled(s, Insert(c, limits))
    ensures SchedInv(Apply(s, Insert(c, limits)))
  {
  }

  lemma InsertKeepsCalls(s: State, c: Client, limits: seq<nat>)
    requires IdsInv(s) && ClaimsInv(s) && Enabled(s, Insert(c, limits))
    requires forall c :: c in s.calls ==> CallInv(s, s.calls[c])
    ensures var s' := Apply(s, Insert(c, limits)); forall c :: c in s'.calls ==> CallInv(s', s'.calls[c])
  {
    var s' := Apply(s, Insert(c, limits));
    assert CallInv(s, s.calls[c]);
    forall c' | c' in s'.calls
      ensures CallInv(s', s'.calls[c'])
    {
      assert c' != c ==> CallInv(s, s.calls[c']);
    }
  }

  lemma InsertKeepsInv(s: State, c: Client, limits: seq<nat>)
    requires Inv(s) && Enabled(s, Insert(c, limits))
    ensures Inv(Apply(s, Insert(c, limits)))
  {
    InsertKeepsIds(s, c, limits);
    InsertKeepsSched(s, c, limits);
    InsertKeepsCalls(s, c, limits);
    hide SchedInv, IdsInv, CallInv, ClaimsInv;
  }

  lemma SchedKeepsCalls(s: State, s': State)
    requires Inv(s) && s' == s.(live := s'.live, removed := s'.removed, sched := s'.sched)
    ensures forall c :: c in s'.calls ==> CallInv(s', s'.calls[c])
  {
    forall c | c in s'.calls
      ensures CallInv(s', s'.calls[c])
    {
      assert CallInv(s, s.calls[c]);
    }
  }

  lemma SchedKeepsClaims(s: State, s': State)
    requires ClaimsInv(s) && s' == s.(live := s'.live, removed := s'.removed, sched := s'.sched)
    ensures ClaimsInv(s')
  {
  }

  lemma VisitKeepsInv(s: State, id: TransferId, bw: real)
    requires Inv(s) && Enabled(s, SchedVisit(id, bw))
    ensures Inv(Apply(s, SchedVisit(id, bw)))
  {
    var s' := Apply(s, SchedVisit(id, bw));
    hide CallInv, ClaimsInv, SchedInv, IdsInv;
    VisitKeepsSched(s, id, bw);
    SchedKeepsCalls(s, s');
    SchedKeepsClaims(s, s');
  }

  lemma VisitKeepsSched(s: State, id: TransferId, bw: real)
    requires IdsInv(s) && SchedInv(s) && Enabled(s, SchedVisit(id, bw))
    ensures IdsInv(Apply(s, SchedVisit(id, bw))) && SchedInv(Apply(s, SchedVisit(id, bw)))
  {
    assert Apply(s, SchedVisit(id, bw)).live.Keys == s.live.Keys;
  }

  lemma RemoveKeepsIds(s: State)
    requires IdsInv(s) && SchedInv(s) && Enabled(s, SchedRemove)
    ensures IdsInv(Apply(s, SchedRemove))
  {
    var id := s.sched.vIds[s.sched.next];
    assert id in s.sched.vIds && id in s.live;
  }

  lemma RemoveKeepsSched(s: State)
    requires IdsInv(s) && SchedInv(s) && Enabled(s, SchedRemove)
    ensures SchedInv(Apply(s, SchedRemove))
  {
    var v := s.sched;
    var id := v.vIds[v.next];
    assert id in v.vIds && id in s.live;
    assert (set i | 0 <= i < v.next + 1 :: v.vIds[i]) == (set i | 0 <= i < v.next :: v.vIds[i]) + {id};
  }

  lemma RemoveKeepsInv(s: State)
    requires Inv(s) && Enabled(s, SchedRemove)
    ensures Inv(Apply(s, SchedRemove))
  {
    hide SchedInv, IdsInv, CallInv, ClaimsInv;
    var s' := Apply(s, SchedRemove);
    RemoveKeepsIds(s);
    RemoveKeepsSched(s);
    SchedKeepsCalls(s, s');
    SchedKeepsClaims(s, s');
  }

  lemma LockKeepsSched(s: State)
    requires IdsInv(s) && SchedInv(s) && Enabled(s, SchedLock)
    ensures IdsInv(Apply(s, SchedLock)) && SchedInv(Apply(s, SchedLock))
  {
  }

  lemma UnlockKeepsSched(s: State)
    requires IdsInv(s) && SchedInv(s) && Enabled(s, SchedUnlock)
    ensures IdsInv(Apply(s, SchedUnlock)) && SchedInv(Apply(s, SchedUnlock))
  {
  }

  lemma EndKeepsSched(s: State)
    requires IdsInv(s) && SchedInv(s) && Enabled(s, SchedEnd)
    ensures IdsInv(Apply(s, SchedEnd)) && SchedInv(Apply(s, SchedEnd))
  {
  }

  lemma SchedStepKeepsSched(s: State, step: Step)
    requires IdsInv(s) && SchedInv(s) && Enabled(s, step) && (step.SchedLock? || step.SchedUnlock? || step.SchedEnd?)
    ensures IdsInv(Apply(s, step)) && SchedInv(Apply(s, step))
    ensures Apply(s, step) == s.(sched := Apply(s, step).sched)
  {
    hide IdsInv, SchedInv;
    match step
    case SchedLock => LockKeepsSched(s);
    case SchedUnlock => UnlockKeepsSched(s);
    case SchedEnd => EndKeepsSched(s);
  }

  lemma SchedStepKeepsInv(s: State, step: Step)
    requires Inv(s) && Enabled(s, step) && (step.SchedLock? || step.SchedUnlock? || step.SchedEnd?)
    ensures Inv(Apply(s, step))
  {
    hide CallInv, ClaimsInv, SchedInv, IdsInv;
    SchedStepKeepsSched(s, step);
    hide Apply, Enabled;
    SchedKeepsCalls(s, Apply(s, step));
    SchedKeepsClaims(s, Apply(s, step));
  }

  lemma ProgressKeepsInv(s: State, handle: Handle, state: CargoState)
    requires Inv(s) && Enabled(s, CargoProgress(handle, state))
    ensures Inv(Apply(s, CargoProgress(handle, state)))
  {
    CargoKeepsInv(s, handle, state);
  }

  /** The steps that only move one call on. */
  predicate Serves(step: Step) {
    step.Request? || step.CheckJob? || step.RpcFails?
  }

  predicate Queries(step: Step) {
    step.QueryJob? || step.QueryFind? || step.QueryStatus?
  }

  lemma RequestKeepsCall(s: State, c: Client, job: JobId, wait: bool)
    requires Enabled(s, Request(c, job, wait))
    ensures var s' := Apply(s, Request(c, job, wait)); s' == SetCall(s, c, s'.calls[c]) && CallInv(s, s'.calls[c])
  {
  }

  lemma CheckKeepsCall(s: State, c: Client)
    requires s.jobs.Keys <= s.knownJobs && Enabled(s, CheckJob(c)) && CallInv(s, s.calls[c])
    ensures var s' := Apply(s, CheckJob(c));
            c in s'.calls && s' == SetCall(s, c, s'.calls[c]) && CallInv(s, s'.calls[c])
  {
  }

  lemma FailureKeepsCall(s: State, c: Client)
    requires Enabled(s, RpcFails(c)) && CallInv(s, s.calls[c])
    ensures var s' := Apply(s, RpcFails(c)); s' == SetCall(s, c, s'.calls[c]) && CallInv(s, s'.calls[c])
  {
  }

  lemma ServeKeepsCall(s: State, step: Step)
    requires s.jobs.Keys <= s.knownJobs && Enabled(s, step) && Serves(step)
    requires step.c in s.calls ==> CallInv(s, s.calls[step.c])
    requires !step.Request? ==> step.c in s.calls
    ensures step.c in Apply(s, step).calls && CallInv(s, Apply(s, step).calls[step.c])
    ensures Apply(s, step) == SetCall(s, step.c, Apply(s, step).calls[step.c])
  {
    hide Enabled, Apply, CallInv;
    match step
    case Request(c, job, wait) => RequestKeepsCall(s, c, job, wait);
    case CheckJob(c) => CheckKeepsCall(s, c);
    case RpcFails(c) => FailureKeepsCall(s, c);
  }

  lemma QueryKeepsCall(s: State, step: Step)
    requires IdsInv(s) && Enabled(s, step) && Queries(step)
    requires step.c in s.calls && CallInv(s, s.calls[step.c])
    ensures step.c in Apply(s, step).calls && CallInv(s, Apply(s, step).calls[step.c])
    ensures Apply(s, step) == SetCall(s, step.c, Apply(s, step).calls[step.c])
  {
  }

  /** Such a step hands its call no identifier and no handle that it did not have. */
  lemma MoveKeepsPhase(s: State, step: Step)
    requires Enabled(s, step) && (Serves(step) || Queries(step))
    ensures step.c in Apply(s, step).calls
    ensures var phase := Apply(s, step).calls[step.c].phase;
            phase.Submitted? || phase.Claimed? ==> step.c in s.calls && s.calls[step.c].phase == phase
  {
  }

  lemma MoveKeepsInv(s: State, step: Step)
    requires Inv(s) && Enabled(s, step) && (Serves(step) || Queries(step))
    ensures Inv(Apply(s, step))
  {
    hide SchedInv, CollectedInv, CallInv, IdsInv;
    assert step.c in s.calls ==> CallInv(s, s.calls[step.c]);
    MoveKeepsPhase(s, step);
    assert !step.Request? ==> step.c in s.calls;
    if Serves(step) {
      ServeKeepsCall(s, step);
    } else {
      assert step.c in s.calls;
      QueryKeepsCall(s, step);
    }
    hide Apply, Enabled;
    CallStepKeepsInv(s, step.c, Apply(s, step).calls[step.c]);
  }

  /** Every step keeps the invariant, as long as the identifier counter has not wrapped around. */
  lemma StepKeepsInv(s: State, step: Step)
    requires Inv(s) && Enabled(s, step) && Apply(s, step).tickets <= WORD
    ensures Inv(Apply(s, step))
  {
    assert Serves(step) <==> step.Request? || step.CheckJob? || step.RpcFails?;
    assert Queries(step) <==> step.QueryJob? || step.QueryFind? || step.QueryStatus?;
    hide *;
    match step
    case RegisterJob(_, _) => JobStepKeepsInv(s, step);
    case RemoveJob(_) => JobStepKeepsInv(s, step);
    case CargoProgress(handle, state) => ProgressKeepsInv(s, handle, state);
    case Request(_, _, _) => MoveKeepsInv(s, step);
    case CheckJob(_) => MoveKeepsInv(s, step);
    case Submit(c, handle) => SubmitKeepsInv(s, c, handle);
    case TakeTicket(c) => TicketKeepsInv(s, c);
    case Insert(c, limits) => InsertKeepsInv(s, c, limits);
    case QueryJob(_) => MoveKeepsInv(s, step);
    case QueryFind(_) => MoveKeepsInv(s, step);
    case QueryStatus(_) => MoveKeepsInv(s, step);
    case RpcFails(_) => MoveKeepsInv(s, step);
    case SchedLock => SchedStepKeepsInv(s, step);
    case SchedVisit(id, bw) => VisitKeepsInv(s, id, bw);
    case SchedUnlock => SchedStepKeepsInv(s, step);
    case SchedRemove => RemoveKeepsInv(s);
    case SchedEnd => SchedStepKeepsInv(s, step);
  }

  /** Tickets are only ever taken, never given back. */
  lemma TicketsGrow(s: State, step: Step)
    requires Enabled(s, step)
    ensures s.tickets <= Apply(s, step).tickets <= s.tickets + 1
  {
  }

  /** A run is a shorter run and one more step. */
  lemma LastStep(steps: seq<Step>) returns (s: State, step: Step)
    requires steps != [] && Exec(steps).Some?
    ensures Exec(steps[..|steps| - 1]) == Some(s) && step == steps[|steps| - 1]
    ensures Enabled(s, step) && Exec(steps) == Some(Apply(s, step))
    ensures s.tickets <= Exec(steps).value.tickets
  {
    s, step := Exec(steps[..|steps| - 1]).value, steps[|steps| - 1];
    hide Enabled, Apply;
    TicketsGrow(s, step);
  }

  /** The invariant holds after every run whose identifier counter has not wrapped around. */
  lemma {:induction false} RunsKeepInv(steps: seq<Step>)
    requires Exec(steps).Some? && Exec(steps).value.tickets <= WORD
    ensures Inv(Exec(steps).value)
  {
    if steps != [] {
      hide *;
      var s, step := LastStep(steps);
      RunsKeepInv(steps[..|steps| - 1]);
      StepKeepsInv(s, step);
    }
  }
}
