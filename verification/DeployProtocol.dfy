/**
 Concurrent deployments on one controller. The check for the adhoc directory, the creation of each of its components,
 and the startup command are separate steps, so two deployments may both pass the check.
 */
module DeployProtocol {
  import opened Common
  import opened Controller

  type ThreadId = nat

  datatype Phase =
    | Checking                  // about to test whether the directory exists
    | Creating(next: nat)       // create_directories is about to make the first `next` components
    | Starting                  // the directory was created; about to run the startup command
    | Answered(ec: ErrorCode)

  datatype Thread = Thread(path: Path, phase: Phase)

  /** `creations`, `deletions` and `startups` record what has happened to each directory. */
  datatype State = State(
    base: set<Path>, dirs: set<Path>, threads: map<ThreadId, Thread>,
    creations: multiset<Path>, deletions: multiset<Path>, startups: multiset<Path>)

  function Initial(base: set<Path>): State {
    State(base, base, map[], multiset{}, multiset{}, multiset{})
  }

  datatype Step =
    | Request(t: ThreadId, path: Path)
    | CheckExists(t: ThreadId)
    | FindMissing(t: ThreadId, first: nat)  // create_directories looks for the components to make
    | MakeDirectory(t: ThreadId)
    | MakeFails(t: ThreadId)
    | RunStartup(t: ThreadId, works: bool)
    | OtherCommand                          // an expand, shrink or terminate request
    | DeleteOutside(path: Path)             // somebody removes a directory behind the controller's back

  predicate InPhase(s: State, t: ThreadId, phase: Phase) {
    t in s.threads && s.threads[t].phase == phase
  }

  predicate Enabled(s: State, step: Step) {
    match step
    case Request(t, _) => t !in s.threads
    case CheckExists(t) => InPhase(s, t, Checking)
    case FindMissing(t, first) =>
      && t in s.threads && s.threads[t].phase == Creating(0)
      && 0 < first <= |s.threads[t].path| && s.threads[t].path[..first] !in s.dirs
    case MakeDirectory(t) => t in s.threads && s.threads[t].phase.Creating? && 0 < s.threads[t].phase.next <= |s.threads[t].path|
    case MakeFails(t) => t in s.threads && s.threads[t].phase.Creating?
    case RunStartup(t, _) => InPhase(s, t, Starting)
    case OtherCommand => true
    case DeleteOutside(path) => path in s.dirs
  }

  function Advance(s: State, t: ThreadId, phase: Phase): State
    requires t in s.threads
  {
    s.(threads := s.threads[t := s.threads[t].(phase := phase)])
  }

  /** One mkdir. Finding the component there already is no error; only the last component decides the outcome. */
  function DoMakeDirectory(s: State, t: ThreadId): State
    requires Enabled(s, MakeDirectory(t))
  {
    var Thread(path, Creating(next)) := s.threads[t];
    var dir := path[..next];
    var isNew := dir !in s.dirs;
    var s' := if isNew then s.(dirs := s.dirs + {dir}, creations := s.creations + multiset{dir}) else s;
    Advance(s', t, if next < |path| then Creating(next + 1) else if isNew then Starting else Answered(AdhocDirCreateFailed))
  }

  function Apply(s: State, step: Step): State
    requires Enabled(s, step)
  {
    match step
    case Request(t, path) => s.(threads := s.threads[t := Thread(path, Checking)])
    case CheckExists(t) => Advance(s, t, if s.threads[t].path in s.dirs then Answered(AdhocDirExists) else Creating(0))
    case FindMissing(t, first) => Advance(s, t, Creating(first))
    case MakeDirectory(t) => DoMakeDirectory(s, t)
    case MakeFails(t) => Advance(s, t, Answered(AdhocDirCreateFailed))
    case RunStartup(t, works) =>
      Advance(s, t, Answered(if works then Success else SubprocessError)).(startups := s.startups + multiset{s.threads[t].path})
    case OtherCommand => s
    case DeleteOutside(path) => s.(dirs := s.dirs - {path}, deletions := s.deletions + multiset{path})
  }

  function Exec(base: set<Path>, steps: seq<Step>): Option<State>
    decreases |steps|
  {
    if steps == [] then Some(Initial(base))
    else
      var last := |steps| - 1;
      match Exec(base, steps[..last])
      case None => None
      case Some(s) => if Enabled(s, steps[last]) then Some(Apply(s, steps[last])) else None
  }

  /** The threads about to start `p`. */
  function Starters(s: State, p: Path): set<ThreadId> {
    set t | t in s.threads && s.threads[t] == Thread(p, Starting)
  }

  /** The threads that have run the startup command of `p`. */
  function Started(s: State, p: Path): set<ThreadId> {
    set t | t in s.threads && HasStarted(s.threads[t], p)
  }

  /** Directories are conserved, every startup has its own creation, and every reply of a started deployment its own startup. */
  ghost predicate PathInv(s: State, p: Path) {
    && s.creations[p] + (if p in s.base then 1 else 0) == s.deletions[p] + (if p in s.dirs then 1 else 0)
    && s.startups[p] + |Starters(s, p)| <= s.creations[p]
    && s.startups[p] == |Started(s, p)|
  }

  predicate HasStarted(thread: Thread, p: Path) {
    thread.path == p && (thread.phase == Answered(Success) || thread.phase == Answered(SubprocessError))
  }

  lemma StartersAfter(s: State, s': State, t: ThreadId, thread: Thread, p: Path)
    requires s'.threads == s.threads[t := thread]
    ensures |Starters(s', p)| == |Starters(s, p)| - (if t in s.threads && s.threads[t] == Thread(p, Starting) then 1 else 0)
                                 + (if thread == Thread(p, Starting) then 1 else 0)
  {
    var before, after := Starters(s, p), Starters(s', p);
    assert after - {t} == before - {t};
    assert |before - {t}| == |before| - (if t in before then 1 else 0);
    assert |after - {t}| == |after| - (if t in after then 1 else 0);
  }

  lemma StartedAfter(s: State, s': State, t: ThreadId, thread: Thread, p: Path)
    requires s'.threads == s.threads[t := thread]
    requires t in s.threads ==> !HasStarted(s.threads[t], p)
    ensures |Started(s', p)| == |Started(s, p)| + (if HasStarted(thread, p) then 1 else 0)
  {
    var before, after := Started(s, p), Started(s', p);
    assert after - {t} == before - {t} && t !in before;
    assert |after - {t}| == |after| - (if t in after then 1 else 0);
  }

  lemma StepKeepsPathInv(s: State, step: Step, p: Path)
    requires Enabled(s, step) && PathInv(s, p)
    ensures PathInv(Apply(s, step), p)
  {
    var s' := Apply(s, step);
    if step.OtherCommand? || step.DeleteOutside? {
      assert Starters(s', p) == Starters(s, p) && Started(s', p) == Started(s, p);
    } else {
      var t := step.t;
      StartersAfter(s, s', t, s'.threads[t], p);
      StartedAfter(s, s', t, s'.threads[t], p);
      hide Starters, Started;
      match step
      case MakeDirectory(_) => assert s.threads[t].path[..|s.threads[t].path|] == s.threads[t].path;
      case _ =>
    }
  }

  lemma {:induction false} RunsKeepPathInv(base: set<Path>, steps: seq<Step>, p: Path)
    requires Exec(base, steps).Some?
    ensures PathInv(Exec(base, steps).value, p) && Exec(base, steps).value.base == base
    decreases |steps|
  {
    if steps == [] {
      assert Starters(Initial(base), p) == {} && Started(Initial(base), p) == {};
    } else {
      var last := |steps| - 1;
      RunsKeepPathInv(base, steps[..last], p);
      StepKeepsPathInv(Exec(base, steps[..last]).value, steps[last], p);
    }
  }

  /**
   Over any interleaving, the startup command of a directory runs at most once, plus once for each time somebody
   deleted the directory; it never runs for a directory that was there from the start and never deleted. As many
   requests are answered as started, successfully or not, as the command has run.
   */
  lemma StartsAtMostOncePerCreation(base: set<Path>, steps: seq<Step>, s: State, p: Path)
    requires Exec(base, steps) == Some(s)
    ensures s.startups[p] <= s.deletions[p] + (if p in base then 0 else 1)
    ensures |Started(s, p)| == s.startups[p]
  {
    RunsKeepPathInv(base, steps, p);
  }

  lemma ExecOneMore(base: set<Path>, steps: seq<Step>, s: State, step: Step)
    requires Exec(base, steps) == Some(s) && Enabled(s, step)
    ensures Exec(base, steps + [step]) == Some(Apply(s, step))
  {
    assert (steps + [step])[..|steps|] == steps;
    hide Enabled, Apply;
  }

  /** One undisturbed deployment of a directory that does not exist. */
  lemma DeployUndisturbed(base: set<Path>, steps: seq<Step>, s: State, t: ThreadId, p: Path) returns (steps': seq<Step>, s': State)
    requires Exec(base, steps) == Some(s) && t !in s.threads && p != [] && p !in s.dirs
    ensures Exec(base, steps') == Some(s') && s'.threads.Keys == s.threads.Keys + {t}
    ensures p in s'.dirs && s'.startups == s.startups + multiset{p} && s'.deletions == s.deletions
  {
    var n := |p|;
    assert p[..n] == p;
    var s1 := Apply(s, Request(t, p));
    var s2 := Apply(s1, CheckExists(t));
    var s3 := Apply(s2, FindMissing(t, n));
    var s4 := Apply(s3, MakeDirectory(t));
    s' := Apply(s4, RunStartup(t, true));
    assert Enabled(s, Request(t, p)) && Enabled(s1, CheckExists(t)) && Enabled(s2, FindMissing(t, n));
    assert Enabled(s3, MakeDirectory(t)) && Enabled(s4, RunStartup(t, true));
    hide Enabled, Apply;
    ExecOneMore(base, steps, s, Request(t, p));
    steps' := steps + [Request(t, p)];
    ExecOneMore(base, steps', s1, CheckExists(t));
    steps' := steps' + [CheckExists(t)];
    ExecOneMore(base, steps', s2, FindMissing(t, n));
    steps' := steps' + [FindMissing(t, n)];
    ExecOneMore(base, steps', s3, MakeDirectory(t));
    steps' := steps' + [MakeDirectory(t)];
    ExecOneMore(base, steps', s4, RunStartup(t, true));
    steps' := steps' + [RunStartup(t, true)];
  }

  // ---------------------------------------------------------------------------------------------------------
  // A deployment that runs alone is the handler
  // ---------------------------------------------------------------------------------------------------------

  /** The parent of a directory is a directory. */
  ghost predicate Closed(dirs: set<Path>) {
    forall p, n: nat :: p in dirs && n <= |p| ==> p[..n] in dirs
  }

  /** create_directories makes one component after the other, here up to the `n`-th. */
  function MakeUpTo(s: State, t: ThreadId, n: nat): (s': State)
    requires t in s.threads && s.threads[t].phase.Creating? && 0 < s.threads[t].phase.next <= n + 1 && n < |s.threads[t].path|
    ensures t in s'.threads && s'.threads[t] == Thread(s.threads[t].path, Creating(n + 1))
    decreases n + 1 - s.threads[t].phase.next
  {
    if s.threads[t].phase.next == n + 1 then s else MakeUpTo(Apply(s, MakeDirectory(t)), t, n)
  }

  /** The components of `p` from the `n`-th to the `m`-th. */
  function Between(p: Path, n: nat, m: nat): set<Path>
    requires m <= |p|
  {
    set k | n <= k <= m :: p[..k]
  }

  lemma {:induction false} MakeUpToMakes(s: State, t: ThreadId, n: nat)
    requires t in s.threads && s.threads[t].phase.Creating? && 0 < s.threads[t].phase.next <= n + 1 && n < |s.threads[t].path|
    ensures var Thread(p, Creating(next)) := s.threads[t];
            var s' := MakeUpTo(s, t, n);
            && s'.dirs == s.dirs + Between(p, next, n)
            && s'.threads == s.threads[t := Thread(p, Creating(n + 1))] && s'.startups == s.startups
    decreases n + 1 - s.threads[t].phase.next
  {
    var Thread(p, Creating(next)) := s.threads[t];
    if next == n + 1 {
      assert Between(p, next, n) == {};
    } else {
      var s1 := Apply(s, MakeDirectory(t));
      assert s1.dirs == s.dirs + {p[..next]} && s1.threads == s.threads[t := Thread(p, Creating(next + 1))];
      MakeUpToMakes(s1, t, n);
      assert Between(p, next, n) == {p[..next]} + Between(p, next + 1, n);
    }
  }

  /**
   All the steps of one request. `first` is the first component that create_directories finds missing; where it fails,
   it has made those up to some component above the last.
   */
  function DeployAlone(s: State, t: ThreadId, p: Path, first: nat, mkdirFails: Option<nat>, execWorks: bool): State
    requires t !in s.threads && (p !in s.dirs ==> 0 < first <= |p| && p[..first] !in s.dirs)
  {
    var s2 := Apply(Apply(s, Request(t, p)), CheckExists(t));
    if p in s.dirs then s2
    else if mkdirFails.Some? && mkdirFails.value < first then Apply(s2, MakeFails(t))
    else
      var s3 := Apply(s2, FindMissing(t, first));
      var last := if mkdirFails.Some? && mkdirFails.value < |p| then mkdirFails.value else |p| - 1;
      var s4 := MakeUpTo(s3, t, last);
      if mkdirFails.Some? then Apply(s4, MakeFails(t))
      else
        var s5 := Apply(s4, MakeDirectory(t));
        if Enabled(s5, RunStartup(t, execWorks)) then Apply(s5, RunStartup(t, execWorks)) else s5
  }

  /** Alone, the steps amount to the handler: the same directories, the same reply, and a startup iff it runs a command. */
  lemma DeployAloneIsDeploy(s: State, t: ThreadId, first: nat, config: Config, uuid: Uuid, adhocType: AdhocType,
                            nodes: seq<string>, mkdirFails: Option<nat>, execWorks: bool)
    requires Refusal(config, adhocType).None? && t !in s.threads && Closed(s.dirs)
    requires var p := AdhocDir(config.value[adhocType], uuid);
             p !in s.dirs ==> 0 < first <= |p| && p[..first] !in s.dirs && p[..first - 1] in s.dirs
    ensures var p := AdhocDir(config.value[adhocType], uuid);
            var (dirs', command, ec, _) := Deploy(config, s.dirs, uuid, adhocType, nodes, mkdirFails, execWorks);
            var s' := DeployAlone(s, t, p, first, mkdirFails, execWorks);
            && s'.dirs == dirs' && s'.threads == s.threads[t := Thread(p, Answered(ec))]
            && s'.startups == s.startups + (if command.Some? then multiset{p} else multiset{})
  {
    hide Apply, MakeUpTo, Ancestors, Closed, CommandTemplates.Expand, DeployAlone;
    DeployAloneOutcome(s, t, AdhocDir(config.value[adhocType], uuid), first, mkdirFails, execWorks);
  }

  /** A missing directory has a first missing component, below an existing one. */
  lemma {:induction false} FirstMissingExists(dirs: set<Path>, p: Path) returns (first: nat)
    requires [] in dirs && p !in dirs
    ensures 0 < first <= |p| && p[..first] !in dirs && p[..first - 1] in dirs
  {
    var parent := p[..|p| - 1];
    assert p[..|p|] == p;
    if parent in dirs {
      first := |p|;
    } else {
      first := FirstMissingExists(dirs, parent);
      assert parent[..first] == p[..first] && parent[..first - 1] == p[..first - 1];
    }
  }

  /** So whatever the directories below the root, there is a way for the request to run alone, and it is the handler's. */
  lemma DeployCanRunAlone(s: State, t: ThreadId, config: Config, uuid: Uuid, adhocType: AdhocType,
                          nodes: seq<string>, mkdirFails: Option<nat>, execWorks: bool) returns (first: nat)
    requires Refusal(config, adhocType).None? && t !in s.threads && Closed(s.dirs) && [] in s.dirs
    ensures var p := AdhocDir(config.value[adhocType], uuid);
            && (p !in s.dirs ==> 0 < first <= |p| && p[..first] !in s.dirs)
            && (var (dirs', command, ec, _) := Deploy(config, s.dirs, uuid, adhocType, nodes, mkdirFails, execWorks);
                var s' := DeployAlone(s, t, p, first, mkdirFails, execWorks);
                && s'.dirs == dirs' && s'.threads == s.threads[t := Thread(p, Answered(ec))]
                && s'.startups == s.startups + (if command.Some? then multiset{p} else multiset{}))
  {
    var p := AdhocDir(config.value[adhocType], uuid);
    first := 0;
    if p !in s.dirs {
      first := FirstMissingExists(s.dirs, p);
    }
    hide Closed, Deploy, DeployAlone;
    DeployAloneIsDeploy(s, t, first, config, uuid, adhocType, nodes, mkdirFails, execWorks);
  }

  lemma DeployAloneOutcome(s: State, t: ThreadId, p: Path, first: nat, mkdirFails: Option<nat>, execWorks: bool)
    requires t !in s.threads && Closed(s.dirs)
    requires p !in s.dirs ==> 0 < first <= |p| && p[..first] !in s.dirs && p[..first - 1] in s.dirs
    ensures var s' := DeployAlone(s, t, p, first, mkdirFails, execWorks);
            var runs := p !in s.dirs && mkdirFails.None?;
            && s'.dirs == (if p in s.dirs then s.dirs else s.dirs + Made(p, mkdirFails))
            && s'.threads == s.threads[t := Thread(p, Answered(
                 if p in s.dirs then AdhocDirExists else if mkdirFails.Some? then AdhocDirCreateFailed
                 else if execWorks then Success else SubprocessError))]
            && s'.startups == (if runs then s.startups + multiset{p} else s.startups)
  {
    hide MakeUpTo, Made;
    CheckAlone(s, t, p);
    if p !in s.dirs {
      if mkdirFails.Some? {
        FailAlone(s, t, p, first, mkdirFails.value);
      } else {
        StartAlone(s, t, p, first, execWorks);
      }
    }
  }

  lemma CheckAlone(s: State, t: ThreadId, p: Path)
    requires t !in s.threads
    ensures var s2 := Apply(Apply(s, Request(t, p)), CheckExists(t));
            s2 == s.(threads := s.threads[t := Thread(p, if p in s.dirs then Answered(AdhocDirExists) else Creating(0))])
  {
    var s1 := Apply(s, Request(t, p));
    var s2 := Apply(s1, CheckExists(t));
    assert s2.threads == s.threads[t := s2.threads[t]];
  }

  lemma FindAlone(s: State, t: ThreadId, p: Path, first: nat)
    requires 0 < first <= |p| && p[..first] !in s.dirs
    ensures var s2 := s.(threads := s.threads[t := Thread(p, Creating(0))]);
            && Enabled(s2, FindMissing(t, first))
            && Apply(s2, FindMissing(t, first)) == s.(threads := s.threads[t := Thread(p, Creating(first))])
  {
  }

  lemma FailAlone(s: State, t: ThreadId, p: Path, first: nat, k: nat)
    requires t !in s.threads && Closed(s.dirs) && p !in s.dirs
    requires 0 < first <= |p| && p[..first] !in s.dirs && p[..first - 1] in s.dirs
    ensures var s' := DeployAlone(s, t, p, first, Some(k), true);
            && s'.dirs == s.dirs + Made(p, Some(k)) && s'.startups == s.startups
            && s'.threads == s.threads[t := Thread(p, Answered(AdhocDirCreateFailed))]
            && DeployAlone(s, t, p, first, Some(k), false) == s'
  {
    hide Closed, Ancestors, Made, MakeUpTo;
    CheckAlone(s, t, p);
    SomeAreThere(s.dirs, p, first, k);
    if k >= first {
      FindAlone(s, t, p, first);
      MakeUpToMakes(s.(threads := s.threads[t := Thread(p, Creating(first))]), t, if k < |p| then k else |p| - 1);
      hide Between;
    }
  }

  lemma StartAlone(s: State, t: ThreadId, p: Path, first: nat, execWorks: bool)
    requires t !in s.threads && Closed(s.dirs) && p !in s.dirs
    requires 0 < first <= |p| && p[..first] !in s.dirs && p[..first - 1] in s.dirs
    ensures var s' := DeployAlone(s, t, p, first, None, execWorks);
            && s'.dirs == s.dirs + Made(p, None)
            && s'.threads == s.threads[t := Thread(p, Answered(if execWorks then Success else SubprocessError))]
            && s'.startups == s.startups + multiset{p}
  {
    hide Ancestors, MakeUpTo;
    CheckAlone(s, t, p);
    FindAlone(s, t, p, first);
    AncestorsAreThere(s.dirs, p, first);
    hide Closed;
    MakeUpToMakes(s.(threads := s.threads[t := Thread(p, Creating(first))]), t, |p| - 1);
    var s4 := MakeUpTo(s.(threads := s.threads[t := Thread(p, Creating(first))]), t, |p| - 1);
    assert p[..|p|] == p;
    assert p !in s4.dirs by {
      assert forall k :: first <= k <= |p| - 1 ==> |p[..k]| == k;
    }
    assert Between(p, first, |p|) == Between(p, first, |p| - 1) + {p};
    hide Between;
    assert Enabled(Apply(s4, MakeDirectory(t)), RunStartup(t, execWorks));
  }

  /** Where create_directories fails, what it leaves is what was there and the components it has made. */
  lemma SomeAreThere(dirs: set<Path>, p: Path, first: nat, k: nat)
    requires Closed(dirs) && 0 < first <= |p| && p[..first - 1] in dirs
    ensures dirs + Made(p, Some(k)) == if k < first then dirs else dirs + Between(p, first, if k < |p| then k else |p| - 1)
  {
    forall i: nat | i < first
      ensures p[..i] in dirs
    {
      assert p[..first - 1][..i] == p[..i];
    }
  }

  lemma AncestorsAreThere(dirs: set<Path>, p: Path, first: nat)
    requires Closed(dirs) && 0 < first <= |p| && p[..first] !in dirs && p[..first - 1] in dirs
    ensures forall k :: first <= k <= |p| ==> p[..k] !in dirs
    ensures dirs + Between(p, first, |p|) == dirs + Ancestors(p)
  {
    forall k: nat | k <= |p|
      ensures p[..k] in dirs <==> k < first
    {
      if k < first {
        assert p[..first - 1][..k] == p[..k];
      } else {
        assert p[..k][..first] == p[..first];
      }
    }
  }

  /** The bound is tight: deleted once from outside, a directory can be started twice. */
  lemma DeletionAllowsSecondStart(p: Path) returns (steps: seq<Step>, s: State)
    requires p != []
    ensures Exec({[]}, steps) == Some(s) && s.startups[p] == 2 && s.deletions[p] == 1
  {
    assert Exec({[]}, []) == Some(Initial({[]}));
    var steps1, s1 := DeployUndisturbed({[]}, [], Initial({[]}), 0, p);
    ExecOneMore({[]}, steps1, s1, DeleteOutside(p));
    var s2 := Apply(s1, DeleteOutside(p));
    steps, s := DeployUndisturbed({[]}, steps1 + [DeleteOutside(p)], s2, 1, p);
  }
}
