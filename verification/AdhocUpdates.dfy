/**
 update_adhoc_storage among the other handlers. It looks the storage up three times: to count its nodes, to set the
 new ones, and to reach its controller. Anything may happen between two of these.
 */
module AdhocUpdates {
  import opened Common
  import opened Registry
  import opened RegistryProtocol
  import opened RegistrySafety
  import opened RegistryTheorems

  // ---------------------------------------------------------------------------------------------------------
  // The handler without interference
  // ---------------------------------------------------------------------------------------------------------

  function UpdateAlone(y: System, t: ThreadId, id: AdhocId, resources: Nodes, answer: Contacted): System
    requires RefsOk(y.reg) && t !in y.threads
  {
    var y1 := Apply(y, CountNodes(t, id, resources));
    if !Enabled(y1, SetNodes(t)) then y1
    else
      var y2 := Apply(y1, SetNodes(t));
      if Enabled(y2, Contact(t, answer)) then Apply(y2, Contact(t, answer)) else y2
  }

  /** Alone, the three sections amount to the handler as a whole. */
  lemma UpdateAloneIsUpdateAdhoc(y: System, t: ThreadId, id: AdhocId, resources: Nodes, answer: Contacted)
    requires RefsOk(y.reg) && t !in y.threads
    ensures var (reg, sent, outcome) := UpdateAdhoc(y.reg, id, resources, answer);
            UpdateAlone(y, t, id, resources, answer) == System(reg, y.threads[t := Updated(sent, outcome)])
  {
    var y1 := Apply(y, CountNodes(t, id, resources));
    if id in y.reg.adhocs {
      assert y1.threads[t] == Counted(id, resources, |y.reg.adhocHeap[y.reg.adhocs[id]].resources|);
      var y2 := Apply(y1, SetNodes(t));
      assert y2.threads[t].Resized?;
      var y3 := Apply(y2, Contact(t, answer));
      assert y3.threads == y.threads[t := y3.threads[t]];
    } else {
      assert y1.threads[t] == Updated(None, Threw);
    }
  }

  /** Alone, it replies exactly when the storage is registered and its controller answers. */
  lemma RepliesExactlyAlone(s: State, id: AdhocId, resources: Nodes, answer: Contacted)
    requires RefsOk(s)
    ensures forall ec :: UpdateAdhoc(s, id, resources, answer).2 == Replied(ec) <==> id in s.adhocs && answer == Answered(ec)
  {
  }

  /** In any state, a first lookup that does not find the storage is the end. */
  lemma FirstLookupThrowsExactly(y: System, t: ThreadId, id: AdhocId, resources: Nodes)
    requires Enabled(y, CountNodes(t, id, resources))
    ensures Apply(y, CountNodes(t, id, resources)).threads[t] == Updated(None, Threw) <==> id !in y.reg.adhocs
  {
  }

  /** An unknown storage makes it throw; so does a silent controller, and then the resources have been set all the same. */
  lemma ThrowsByExample()
    ensures UpdateAdhoc(EMPTY, 0, ["a"], Answered(Success)) == (EMPTY, None, Threw)
    ensures var s := RegisterAdhoc(EMPTY, INFO, []).0;
            RefsOk(s) && UpdateAdhoc(s, 0, ["a"], CallFailed) ==
                         (s.(adhocHeap := [Adhoc(0, INFO, ["a"], None)]), Some(Call(Resize.Expand, ["a"])), Threw)
  {
    var s := RegisterAdhoc(EMPTY, INFO, []).0;
    assert s.adhocHeap == [Adhoc(0, INFO, [], None)];
    assert s.adhocHeap[0 := Adhoc(0, INFO, ["a"], None)] == [Adhoc(0, INFO, ["a"], None)];
  }

  // ---------------------------------------------------------------------------------------------------------
  // The handler in any run
  // ---------------------------------------------------------------------------------------------------------

  /** The identifier has been given to a storage. */
  ghost predicate Known(s: State, id: AdhocId) {
    exists i :: 0 <= i < |s.adhocHeap| && s.adhocHeap[i].id == id
  }

  /** A known storage is deregistered by the removals of its identifier and by nothing else, and for good. */
  lemma OnlyDropDeregisters(y: System, step: Step, id: AdhocId)
    requires Inv(y) && Known(y.reg, id) && Enabled(y, step) && Unwrapped(Apply(y, step).reg)
    ensures Known(Apply(y, step).reg, id)
    ensures id in Apply(y, step).reg.adhocs <==> id in y.reg.adhocs && step != DropAdhoc(id)
  {
    if step.CreateAdhoc? {
      ClaimIsUnused(y, step.t);
    }
    hide ThreadsInv, StateInv, Apply, Enabled;
    StepAdvances(y, step);
    KnownStaysKnown(y.reg, Apply(y, step).reg, id);
    StepDeregisters(y, step, id);
  }

  lemma KnownStaysKnown(s: State, s': State, id: AdhocId)
    requires Known(s, id) && Evolves(s, s')
    ensures Known(s', id)
  {
    var i :| 0 <= i < |s.adhocHeap| && s.adhocHeap[i].id == id;
    assert s'.adhocHeap[i].id == id;
  }

  lemma StepDeregisters(y: System, step: Step, id: AdhocId)
    requires Enabled(y, step) && (step.CreateAdhoc? ==> y.threads[step.t].adhocId != id)
    ensures id in Apply(y, step).reg.adhocs <==> id in y.reg.adhocs && step != DropAdhoc(id)
  {
  }

  /** The thread is between its first lookup, at which the storage had `before` nodes, and its last. */
  predicate Updating(y: System, t: ThreadId, id: AdhocId, resources: Nodes, before: nat) {
    && t in y.threads
    && (|| y.threads[t] == Counted(id, resources, before)
        || y.threads[t] == Resized(id, ResizeFor(before, resources))
        || y.threads[t].Updated?)
  }

  lemma StepKeepsUpdating(y: System, step: Step, t: ThreadId, id: AdhocId, resources: Nodes, before: nat)
    requires Updating(y, t, id, resources, before) && Enabled(y, step)
    ensures Updating(Apply(y, step), t, id, resources, before)
  {
  }

  lemma RegisteredIsKnown(steps: seq<Step>, y: System, id: AdhocId)
    requires ReachedBy(steps, y) && id in y.reg.adhocs
    ensures Known(y.reg, id)
  {
    RunsKeepInv(steps, y);
    var r := y.reg.adhocs[id];
    assert 0 <= r < |y.reg.adhocHeap| && y.reg.adhocHeap[r].id == id;
  }

  /** In any run, a known storage is registered as long as it was and nobody has removed it. */
  lemma {:induction false} RegisteredUntilDropped(steps: seq<Step>, y: System, more: seq<Step>, y': System, id: AdhocId)
    requires ReachedBy(steps, y) && ReachedBy(steps + more, y') && Known(y.reg, id)
    ensures Known(y'.reg, id) && (id in y'.reg.adhocs <==> id in y.reg.adhocs && DropAdhoc(id) !in more)
    decreases |more|
  {
    hide Exec, Enabled, Apply, Inv, Known, Unwrapped;
    if more == [] {
      assert steps + more == steps;
    } else {
      var m, step := LastStep(steps + more);
      var fewer := more[..|more| - 1];
      assert (steps + more)[..|steps + more| - 1] == steps + fewer && more == fewer + [step];
      RegisteredUntilDropped(steps, y, fewer, m, id);
      RunsKeepInv(steps + fewer, m);
      OnlyDropDeregisters(m, step, id);
    }
  }

  /** What becomes of an update while the run goes on. */
  lemma {:induction false} UpdateGoesOn(steps: seq<Step>, y0: System, more: seq<Step>, y: System,
                                        t: ThreadId, id: AdhocId, resources: Nodes, before: nat)
    requires ReachedBy(steps, y0) && ReachedBy(steps + more, y) && Updating(y0, t, id, resources, before)
    ensures Updating(y, t, id, resources, before)
    decreases |more|
  {
    hide Exec, Enabled, Apply, Updating, Unwrapped;
    if more == [] {
      assert steps + more == steps;
    } else {
      var m, step := LastStep(steps + more);
      var fewer := more[..|more| - 1];
      assert (steps + more)[..|steps + more| - 1] == steps + fewer;
      UpdateGoesOn(steps, y0, fewer, m, t, id, resources, before);
      StepKeepsUpdating(m, step, t, id, resources, before);
    }
  }

  /** The update is over: with the controller's own code if it answered and the storage was still there, and else with the exception. */
  ghost predicate EndsAs(thread: Thread, answer: Contacted, removed: bool) {
    && thread.Updated?
    && (forall ec :: thread.outcome == Replied(ec) <==> answer == Answered(ec) && !removed)
    && (thread.outcome == Threw <==> removed || answer == NoEndpoint || answer == CallFailed)
  }

  /**
   In any run, an update whose first lookup finds the storage ends in a reply exactly when the controller answers and
   the storage has not been removed since. What it asks the controller for is decided by the nodes that the storage
   had at that first lookup, and passes the nodes that it has by the last.
   */
  lemma RepliesExactly(steps: seq<Step>, y0: System, more: seq<Step>, y: System,
                       t: ThreadId, id: AdhocId, resources: Nodes, answer: Contacted)
    requires ReachedBy(steps, y0) && Enabled(y0, CountNodes(t, id, resources)) && id in y0.reg.adhocs
    requires ReachedBy(steps + [CountNodes(t, id, resources)] + more, y) && Enabled(y, Contact(t, answer))
    ensures y0.reg.adhocs[id] < |y0.reg.adhocHeap|
    ensures var resize := ResizeFor(|y0.reg.adhocHeap[y0.reg.adhocs[id]].resources|, resources);
            Apply(y, Contact(t, answer)).threads[t] ==
              if DropAdhoc(id) in more then Updated(None, Threw)
              else Updated(Sent(Call(resize, NodesOf(y.reg, id)), answer), Ending(answer))
    ensures EndsAs(Apply(y, Contact(t, answer)).threads[t], answer, DropAdhoc(id) in more)
    ensures forall call :: Apply(y, Contact(t, answer)).threads[t].sent == Some(call) <==>
              && DropAdhoc(id) !in more && answer != NoEndpoint && call.nodes == NodesOf(y.reg, id)
              && (call.resize == Resize.Expand <==> |resources| > |y0.reg.adhocHeap[y0.reg.adhocs[id]].resources|)
  {
    var first := CountNodes(t, id, resources);
    var before := |y0.reg.adhocHeap[y0.reg.adhocs[id]].resources|;
    var y1 := Apply(y0, first);
    assert y1.threads[t] == Counted(id, resources, before);
    assert Updating(y1, t, id, resources, before) && y1.reg == y0.reg;
    assert y.threads[t].Resized? && RefsOk(y.reg);
    ExecOneMore(steps, y0, first);
    UpdateGoesOn(steps + [first], y1, more, y, t, id, resources, before);
    RegisteredIsKnown(steps + [first], y1, id);
    RegisteredUntilDropped(steps + [first], y1, more, y, id);
    hide Exec, Known;
  }

  /** The nodes of a storage, if it is registered. */
  function NodesOf(s: State, id: AdhocId): Nodes {
    if id in s.adhocs && s.adhocs[id] < |s.adhocHeap| then s.adhocHeap[s.adhocs[id]].resources else []
  }

  // ---------------------------------------------------------------------------------------------------------
  // The nodes of a storage, and whether an update asks for the right thing
  // ---------------------------------------------------------------------------------------------------------

  /** The nodes that a step gives the storage, if it is an update's second section for it. */
  function Sets(y: System, step: Step, id: AdhocId): Option<Nodes> {
    if step.SetNodes? && step.t in y.threads && y.threads[step.t].Counted? && y.threads[step.t].storage == id
    then Some(y.threads[step.t].wanted)
    else None
  }

  /** The nodes that `more`, continuing the run `steps`, gives the storage last, if it gives it any. */
  function LastSet(steps: seq<Step>, more: seq<Step>, id: AdhocId): Option<Nodes>
    decreases |more|
  {
    if more == [] then None
    else
      var fewer := more[..|more| - 1];
      match Exec(steps + fewer)
      case None => None
      case Some(y) =>
        if Sets(y, more[|more| - 1], id).Some? then Sets(y, more[|more| - 1], id) else LastSet(steps, fewer, id)
  }

  lemma StepSetsNodes(y: System, step: Step, id: AdhocId)
    requires HeapInv(y.reg) && Enabled(y, step) && id in y.reg.adhocs && step != DropAdhoc(id)
    requires step.CreateAdhoc? ==> y.threads[step.t].adhocId != id
    ensures NodesOf(Apply(y, step).reg, id) ==
            match Sets(y, step, id) case Some(nodes) => nodes case None => NodesOf(y.reg, id)
  {
    assert forall a :: a in y.reg.adhocs && a != id ==> y.reg.adhocs[a] != y.reg.adhocs[id];
    hide JobHeapInv, AdhocHeapInv;
  }

  /** A storage that stays registered has the nodes that were set last, and keeps those it had if none were. */
  lemma {:induction false} NodesAreTheLastSet(steps: seq<Step>, y: System, more: seq<Step>, y': System, id: AdhocId)
    requires ReachedBy(steps, y) && ReachedBy(steps + more, y') && id in y.reg.adhocs && DropAdhoc(id) !in more
    ensures id in y'.reg.adhocs && Known(y'.reg, id)
    ensures NodesOf(y'.reg, id) == match LastSet(steps, more, id) case Some(nodes) => nodes case None => NodesOf(y.reg, id)
    decreases |more|
  {
    hide Exec, Enabled, Apply, StateInv, ThreadsInv, Known, Unwrapped, NodesOf, Sets;
    if more == [] {
      assert steps + more == steps;
      RegisteredIsKnown(steps, y, id);
    } else {
      var m, step := LastStep(steps + more);
      var fewer := more[..|more| - 1];
      assert (steps + more)[..|steps + more| - 1] == steps + fewer && more == fewer + [step];
      NodesAreTheLastSet(steps, y, fewer, m, id);
      RunsKeepInv(steps + fewer, m);
      OnlyDropDeregisters(m, step, id);
      CreatesNoOther(m, step, id);
      StepSetsNodes(m, step, id);
    }
  }

  lemma CreatesNoOther(y: System, step: Step, id: AdhocId)
    requires Inv(y) && Known(y.reg, id) && Enabled(y, step)
    ensures HeapInv(y.reg) && (step.CreateAdhoc? ==> y.threads[step.t].adhocId != id)
  {
    if step.CreateAdhoc? {
      ClaimIsUnused(y, step.t);
    }
  }

  /** Up to its second section the update remembers the count of its first. */
  lemma CountedStays(steps: seq<Step>, y0: System, more: seq<Step>, y: System, t: ThreadId, id: AdhocId, resources: Nodes)
    requires ReachedBy(steps, y0) && Enabled(y0, CountNodes(t, id, resources)) && id in y0.reg.adhocs
    requires ReachedBy(steps + [CountNodes(t, id, resources)] + more, y) && Enabled(y, SetNodes(t))
    ensures var y1 := Apply(y0, CountNodes(t, id, resources));
            y1.reg == y0.reg && ReachedBy(steps + [CountNodes(t, id, resources)], y1)
    ensures y.threads[t] == Counted(id, resources, |NodesOf(y0.reg, id)|)
  {
    var first := CountNodes(t, id, resources);
    var before := |NodesOf(y0.reg, id)|;
    var y1 := Apply(y0, first);
    assert y1.threads[t] == Counted(id, resources, before) && y1.reg == y0.reg;
    assert y.threads[t].Counted?;
    assert Updating(y1, t, id, resources, before);
    hide Exec, Known, NodesOf, Apply, Enabled;
    ExecOneMore(steps, y0, first);
    UpdateGoesOn(steps + [first], y1, more, y, t, id, resources, before);
  }

  lemma SecondSection(y: System, t: ThreadId)
    requires Enabled(y, SetNodes(t))
    ensures var Counted(id, resources, before) := y.threads[t];
            var y' := Apply(y, SetNodes(t));
            && y'.threads[t] == Resized(id, ResizeFor(before, resources))
            && y'.reg.adhocs == y.reg.adhocs && (Unwrapped(y.reg) ==> Unwrapped(y'.reg))
            && (id in y.reg.adhocs ==> NodesOf(y'.reg, id) == resources)
  {
  }

  /**
   An update asks for the direction in which it takes the storage, an expansion exactly if it grows it, exactly when the
   count of its first lookup and the nodes it replaces compare alike with the nodes it sets.
   */
  lemma DirectionIsRightExactly(steps: seq<Step>, y0: System, more: seq<Step>, y: System, t: ThreadId, id: AdhocId, resources: Nodes)
    requires ReachedBy(steps, y0) && Enabled(y0, CountNodes(t, id, resources)) && id in y0.reg.adhocs
    requires ReachedBy(steps + [CountNodes(t, id, resources)] + more, y) && Enabled(y, SetNodes(t))
    ensures Apply(y, SetNodes(t)).threads[t] == Resized(id, ResizeFor(|NodesOf(y.reg, id)|, resources)) <==>
              (|resources| > |NodesOf(y0.reg, id)| <==> |resources| > |NodesOf(y.reg, id)|)
  {
    CountedStays(steps, y0, more, y, t, id, resources);
    SecondSection(y, t);
    hide Exec, Enabled, Apply, Known, Unwrapped, NodesOf;
  }

  /** The nodes set in between, if any, are fewer than the new ones exactly if the nodes counted were. */
  predicate ComparesAlike(resources: Nodes, counted: nat, between: Option<Nodes>) {
    between.Some? ==> (|resources| > counted <==> |resources| > |between.value|)
  }

  /** The storage that nobody removes meets the second section with the nodes that others set last since the first. */
  lemma SecondSectionInRun(steps: seq<Step>, y0: System, more: seq<Step>, y: System, t: ThreadId, id: AdhocId, resources: Nodes)
    requires ReachedBy(steps, y0) && Enabled(y0, CountNodes(t, id, resources)) && id in y0.reg.adhocs
    requires ReachedBy(steps + [CountNodes(t, id, resources)] + more, y) && Enabled(y, SetNodes(t)) && DropAdhoc(id) !in more
    ensures NodesOf(y.reg, id) == match LastSet(steps + [CountNodes(t, id, resources)], more, id)
                                  case Some(nodes) => nodes
                                  case None => NodesOf(y0.reg, id)
    ensures ReachedBy(steps + [CountNodes(t, id, resources)] + more + [SetNodes(t)], Apply(y, SetNodes(t)))
    ensures id in Apply(y, SetNodes(t)).reg.adhocs && NodesOf(Apply(y, SetNodes(t)).reg, id) == resources
  {
    CountedStays(steps, y0, more, y, t, id, resources);
    SecondSection(y, t);
    hide Exec, Enabled, Apply, Known, Unwrapped, NodesOf, LastSet;
    var run := steps + [CountNodes(t, id, resources)];
    NodesAreTheLastSet(run, Apply(y0, CountNodes(t, id, resources)), more, y, id);
    ExecOneMore(run + more, y, SetNodes(t));
  }

  lemma NodesCounted(steps: seq<Step>, y: System, id: AdhocId)
    requires ReachedBy(steps, y) && id in y.reg.adhocs
    ensures y.reg.adhocs[id] < |y.reg.adhocHeap| && NodesOf(y.reg, id) == y.reg.adhocHeap[y.reg.adhocs[id]].resources
  {
    RunsKeepInv(steps, y);
  }

  /**
   The whole update of a storage that nobody removes: "it asks for an expansion exactly when it grows the storage" holds
   exactly when what others set between its first two lookups compares with its own nodes as its count did, and so if
   they set nothing. The nodes it passes are those set last since, and so its own if nobody else sets any.
   */
  lemma UpdateAsksForWhatItDoes(steps: seq<Step>, y0: System, more: seq<Step>, y: System, rest: seq<Step>, y': System,
                                t: ThreadId, id: AdhocId, resources: Nodes, answer: Contacted)
    requires ReachedBy(steps, y0) && Enabled(y0, CountNodes(t, id, resources)) && id in y0.reg.adhocs
    requires ReachedBy(steps + [CountNodes(t, id, resources)] + more, y) && Enabled(y, SetNodes(t))
    requires ReachedBy(steps + [CountNodes(t, id, resources)] + more + [SetNodes(t)] + rest, y') && Enabled(y', Contact(t, answer))
    requires DropAdhoc(id) !in more && DropAdhoc(id) !in rest
    ensures var first := steps + [CountNodes(t, id, resources)];
            var grows := |resources| > |NodesOf(y.reg, id)|;
            var last := LastSet(first + more + [SetNodes(t)], rest, id);
            var asks := Call(ResizeFor(|NodesOf(y0.reg, id)|, resources), if last.Some? then last.value else resources);
            && Apply(y', Contact(t, answer)).threads[t] == Updated(Sent(asks, answer), Ending(answer))
            && EndsAs(Apply(y', Contact(t, answer)).threads[t], answer, false)
            && (Apply(y', Contact(t, answer)).threads[t].sent.None? <==> answer == NoEndpoint)
            && NodesOf(Apply(y, SetNodes(t)).reg, id) == resources
            && ((asks.resize == Resize.Expand <==> grows) <==>
                  ComparesAlike(resources, |NodesOf(y0.reg, id)|, LastSet(first, more, id)))
  {
    var first, second := CountNodes(t, id, resources), SetNodes(t);
    var run := steps + [first];
    SecondSectionInRun(steps, y0, more, y, t, id, resources);
    hide Exec, Enabled, Apply, Known, Unwrapped, NodesOf, LastSet;
    assert run + more + [second] + rest == run + (more + [second] + rest);
    assert DropAdhoc(id) !in more + [second] + rest;
    RepliesExactly(steps, y0, more + [second] + rest, y', t, id, resources, answer);
    NodesAreTheLastSet(run + more + [second], Apply(y, second), rest, y', id);
    NodesCounted(steps, y0, id);
  }

  // ---------------------------------------------------------------------------------------------------------
  // Runs that show what interference does
  // ---------------------------------------------------------------------------------------------------------

  lemma OneStorage() returns (steps: seq<Step>, y: System)
    ensures ReachedBy(steps, y)
    ensures y == System(State([], [Adhoc(0, INFO, [], None)], 0, 1, map[], map[], map[0 := 0]),
                        map[2 := AdhocRegistered(Value(0))])
  {
    var y0, y1 := StorageRegistered();
    y := y1;
    hide Enabled, Apply;
    ExecOneMore([], INITIAL, TakeAdhocTicket(2, INFO, []));
    steps := [TakeAdhocTicket(2, INFO, [])];
    assert [] + steps == steps;
    ExecOneMore(steps, y0, CreateAdhoc(2));
    steps := steps + [CreateAdhoc(2)];
  }

  /** One storage, with the nodes and the update by thread 3 as given. */
  function WithUpdate(nodes: Nodes, thread: Thread): System {
    System(State([], [Adhoc(0, INFO, nodes, None)], 0, 1, map[], map[], map[0 := 0]), map[2 := AdhocRegistered(Value(0)), 3 := thread])
  }

  lemma UpdateStates(y: System)
    requires y == System(State([], [Adhoc(0, INFO, [], None)], 0, 1, map[], map[], map[0 := 0]),
                         map[2 := AdhocRegistered(Value(0))])
    ensures var y1, y2 := WithUpdate([], Counted(0, ["a"], 0)), WithUpdate(["a"], Resized(0, Resize.Expand));
            && Enabled(y, CountNodes(3, 0, ["a"])) && y1 == Apply(y, CountNodes(3, 0, ["a"]))
            && Enabled(y1, SetNodes(3)) && y2 == Apply(y1, SetNodes(3))
  {
    var y1 := WithUpdate([], Counted(0, ["a"], 0));
    assert Apply(y, CountNodes(3, 0, ["a"])).threads == y1.threads;
    var y2 := Apply(y1, SetNodes(3));
    assert y2.threads == WithUpdate(["a"], Resized(0, Resize.Expand)).threads;
    assert y2.reg.adhocHeap == [Adhoc(0, INFO, ["a"], None)];
  }

  lemma RemovalStates() returns (y3: System)
    ensures var y2 := WithUpdate(["a"], Resized(0, Resize.Expand));
            && Enabled(y2, DropAdhoc(0)) && y3 == Apply(y2, DropAdhoc(0))
            && Enabled(y3, Contact(3, Answered(Success))) && Apply(y3, Contact(3, Answered(Success))).threads[3] == Updated(None, Threw)
  {
    y3 := Apply(WithUpdate(["a"], Resized(0, Resize.Expand)), DropAdhoc(0));
  }

  /** A storage removed between the second lookup and the last makes the handler throw though the controller would answer. */
  lemma RemovedMeanwhileThrows() returns (steps: seq<Step>, y: System)
    ensures Exec(steps) == Some(y) && 3 in y.threads && y.threads[3] == Updated(None, Threw)
  {
    var run, y0 := OneStorage();
    UpdateStates(y0);
    var y3 := RemovalStates();
    var y1, y2 := WithUpdate([], Counted(0, ["a"], 0)), WithUpdate(["a"], Resized(0, Resize.Expand));
    y := Apply(y3, Contact(3, Answered(Success)));
    assert 3 in y.threads;
    hide Enabled, Apply;
    ExecOneMore(run, y0, CountNodes(3, 0, ["a"]));
    run := run + [CountNodes(3, 0, ["a"])];
    ExecOneMore(run, y1, SetNodes(3));
    run := run + [SetNodes(3)];
    ExecOneMore(run, y2, DropAdhoc(0));
    run := run + [DropAdhoc(0)];
    ExecOneMore(run, y3, Contact(3, Answered(Success)));
    steps := run + [Contact(3, Answered(Success))];
  }

  lemma StaleCountStates() returns (y2: System, y3: System, y4: System)
    ensures var y1 := WithUpdate([], Counted(0, ["a"], 0));
            && Enabled(y1, CountNodes(4, 0, ["a", "b"])) && y2 == Apply(y1, CountNodes(4, 0, ["a", "b"]))
    ensures Enabled(y2, SetNodes(4)) && y3 == Apply(y2, SetNodes(4)) && NodesOf(y3.reg, 0) == ["a", "b"]
    ensures Enabled(y3, SetNodes(3)) && y4 == Apply(y3, SetNodes(3)) && NodesOf(y4.reg, 0) == ["a"]
    ensures RefsOk(y4.reg) && 0 in y4.reg.adhocs && 3 in y4.threads && y4.threads[3] == Resized(0, Resize.Expand)
  {
    var y1 := WithUpdate([], Counted(0, ["a"], 0));
    y2 := Apply(y1, CountNodes(4, 0, ["a", "b"]));
    assert y2 == System(y1.reg, y1.threads[4 := Counted(0, ["a", "b"], 0)]);
    y3 := Apply(y2, SetNodes(4));
    assert y3 == System(WithUpdate(["a", "b"], Registered(Value(0))).reg, y1.threads[4 := Resized(0, Resize.Expand)]);
    y4 := Apply(y3, SetNodes(3));
  }

  lemma ContactSends(y: System, t: ThreadId)
    requires RefsOk(y.reg) && t in y.threads && y.threads[t] == Resized(0, Resize.Expand) && 0 in y.reg.adhocs
    ensures Enabled(y, Contact(t, Answered(Success)))
    ensures Apply(y, Contact(t, Answered(Success))).threads ==
            y.threads[t := Updated(Some(Call(Resize.Expand, NodesOf(y.reg, 0))), Replied(Success))]
  {
  }

  /** With two updates at once, one that takes the storage from two nodes to one asks the controller to expand it. */
  lemma StaleCountExpandsWhileShrinking() returns (before: seq<Step>, y: System, y': System, y'': System)
    ensures Exec(before) == Some(y) && NodesOf(y.reg, 0) == ["a", "b"]
    ensures Exec(before + [SetNodes(3)]) == Some(y') && NodesOf(y'.reg, 0) == ["a"]
    ensures Exec(before + [SetNodes(3)] + [Contact(3, Answered(Success))]) == Some(y'')
    ensures 3 in y''.threads && y''.threads[3] == Updated(Some(Call(Resize.Expand, ["a"])), Replied(Success))
  {
    var run, y0 := OneStorage();
    UpdateStates(y0);
    var y1 := WithUpdate([], Counted(0, ["a"], 0));
    var y2, y3, y4 := StaleCountStates();
    ContactSends(y4, 3);
    y, y', y'' := y3, y4, Apply(y4, Contact(3, Answered(Success)));
    hide Enabled, Apply;
    ExecOneMore(run, y0, CountNodes(3, 0, ["a"]));
    run := run + [CountNodes(3, 0, ["a"])];
    ExecOneMore(run, y1, CountNodes(4, 0, ["a", "b"]));
    run := run + [CountNodes(4, 0, ["a", "b"])];
    ExecOneMore(run, y2, SetNodes(4));
    before := run + [SetNodes(4)];
    ExecOneMore(before, y3, SetNodes(3));
    ExecOneMore(before + [SetNodes(3)], y4, Contact(3, Answered(Success)));
  }
}
