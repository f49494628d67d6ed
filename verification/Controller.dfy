/** The adhoc storage controller's handlers: directories, command templates and replies. */
module Controller {
  import opened Common
  import AdhocStorageTypes
  import opened CommandTemplates
  import opened Splitting

  type Uuid = string

  type AdhocType = AdhocStorageTypes.AdhocType

  /** A directory, as the list of its components below the root. */
  type Path = seq<string>

  datatype AdhocConfig = AdhocConfig(workdir: Path, startup: string, expand: string, shrink: string, shutdown: string)

  /** The configuration file, if there was one. */
  type Config = Option<map<AdhocType, AdhocConfig>>

  function AdhocDir(cfg: AdhocConfig, uuid: Uuid): Path {
    cfg.workdir + [uuid]
  }

  function PathText(p: Path): string {
    if p == [] then "" else "/" + p[0] + PathText(p[1..])
  }

  /** The text of a path starts at the root and has its components, in order, between the slashes. */
  lemma {:induction false} PathTextFields(p: Path)
    requires SepFree(p, '/')
    ensures Fields(PathText(p), '/') == [""] + p
  {
    if p != [] {
      PathTextFields(p[1..]);
      FieldsOfFirst(p[0], PathText(p[1..]), '/');
      assert PathText(p)[1..] == p[0] + PathText(p[1..]) && p[0] + "" == p[0];
      assert ([""] + p[1..])[1..] == p[1..] && [p[0]] + p[1..] == p;
    }
  }

  /** The directories on the way to `p`, `p` included. */
  function Ancestors(p: Path): set<Path> {
    set n | 0 <= n <= |p| :: p[..n]
  }

  /**
   What create_directories leaves behind: all the directories on the way, or, where it fails, those up to some
   component above the last.
   */
  function Made(p: Path, fails: Option<nat>): set<Path> {
    match fails
    case None => Ancestors(p)
    case Some(k) => set n | 0 <= n <= k && n < |p| :: p[..n]
  }

  /**
   The directories afterwards: where the directory was missing, it and all those above it are there, or, where its
   creation failed, those above it that had been made by then; no other directory comes or goes.
   */
  ghost predicate Creates(before: set<Path>, dir: Path, fails: Option<nat>, after: set<Path>) {
    forall d :: d in after <==> d in before || (dir !in before && d <= dir && (fails.Some? ==> d != dir && |d| <= fails.value))
  }

  lemma CreationMeans(before: set<Path>, dir: Path, fails: Option<nat>)
    ensures Creates(before, dir, fails, if dir in before then before else before + Made(dir, fails))
  {
    assert forall d :: d <= dir <==> |d| <= |dir| && dir[..|d|] == d;
    assert dir[..|dir|] == dir;
  }

  /** There is a configuration for this type of storage. */
  predicate Serves(config: Config, t: AdhocType) {
    config.Some? && t in config.value
  }

  /** Why a request is turned away before it does anything, if it is. */
  function Refusal(config: Config, t: AdhocType): Option<ErrorCode> {
    if config.None? || config.value == map[] then Some(Snafu)
    else if t !in config.value then Some(AdhocTypeUnsupported)
    else None
  }

  /** What a deployment leads to when nothing interferes: the directories, the command it runs, and the reply. */
  function Deploy(config: Config, dirs: set<Path>, uuid: Uuid, t: AdhocType, nodes: seq<string>, mkdirFails: Option<nat>, execWorks: bool):
    (set<Path>, Option<string>, ErrorCode, Option<Path>)
  {
    match Refusal(config, t)
    case Some(ec) => (dirs, None, ec, None)
    case None =>
      var cfg := config.value[t];
      var dir := AdhocDir(cfg, uuid);
      if dir in dirs then (dirs, None, AdhocDirExists, Some(dir))
      else if mkdirFails.Some? then (dirs + Made(dir, mkdirFails), None, AdhocDirCreateFailed, Some(dir))
      else
        (dirs + Ancestors(dir), Some(CommandTemplates.Expand(cfg.startup, DeployBindings(uuid, PathText(dir), nodes))),
         if execWorks then Success else SubprocessError, Some(dir))
  }

  /** The error of a request for a storage that there is no configuration for. */
  predicate TurnedAwayWith(config: Config, ec: ErrorCode) {
    ec == if config.Some? && config.value != map[] then AdhocTypeUnsupported else Snafu
  }

  /** The command line is the template with the storage's identifier, directory and nodes filled in. */
  ghost predicate FilledIn(line: string, template: string, uuid: Uuid, dir: Path, nodes: seq<string>) {
    exists m :: BindsDeployment(m, uuid, PathText(dir), nodes) && line == CommandTemplates.Expand(template, m)
  }

  /** The same without a directory. */
  ghost predicate FilledInToResize(line: string, template: string, uuid: Uuid, nodes: seq<string>) {
    exists m :: BindsResize(m, uuid, nodes) && line == CommandTemplates.Expand(template, m)
  }

  /** Exactly one command line has been handed over. */
  predicate OneMore(before: seq<string>, after: seq<string>) {
    |after| == |before| + 1 && after[..|before|] == before
  }

  /** What a deployment does, in each of its endings: the startup template is filled in, with the new directory and the nodes. */
  lemma DeployMeans(config: Config, dirs: set<Path>, uuid: Uuid, t: AdhocType, nodes: seq<string>,
                    mkdirFails: Option<nat>, execWorks: bool)
    ensures var (dirs', command, ec, adhocDir) := Deploy(config, dirs, uuid, t, nodes, mkdirFails, execWorks);
            if !Serves(config, t) then TurnedAwayWith(config, ec) && dirs' == dirs && command.None? && adhocDir.None?
            else
              var dir := config.value[t].workdir + [uuid];
              && adhocDir == Some(dir) && Creates(dirs, dir, mkdirFails, dirs')
              && (dir in dirs ==> ec == AdhocDirExists && command.None?)
              && (dir !in dirs && mkdirFails.Some? ==> ec == AdhocDirCreateFailed && command.None?)
              && (dir !in dirs && mkdirFails.None? ==>
                    && ec == (if execWorks then Success else SubprocessError)
                    && command.Some? && FilledIn(command.value, config.value[t].startup, uuid, dir, nodes))
  {
    if Serves(config, t) {
      var dir := AdhocDir(config.value[t], uuid);
      CreationMeans(dirs, dir, mkdirFails);
      hide Creates, Ancestors, BindsDeployment, CommandTemplates.Expand, DeployBindings;
      var m := DeployBindings(uuid, PathText(dir), nodes);
      assert BindsDeployment(m, uuid, PathText(dir), nodes);
    }
  }

  datatype Request = ToExpand | ToShrink

  class Server {
    const config: Config
    var dirs: set<Path>
    /** The command lines handed to exec, in order. */
    var executed: seq<string>

    constructor (config: Config, dirs: set<Path>)
      ensures this.config == config && this.dirs == dirs && executed == []
    {
      this.config, this.dirs, executed := config, dirs, [];
    }

    /** `command::exec`; whether the subprocess works out is up to the environment. */
    method Exec(c: Command, works: bool) returns (ec: ErrorCode)
      modifies this`executed
      ensures executed == old(executed) + [c.cmdline]
      ensures ec == if works then Success else SubprocessError
    {
      executed := executed + [c.cmdline];
      ec := if works then Success else SubprocessError;
    }

    /** `create_directories`, which reports whether it created the last component. */
    method CreateDirectories(dir: Path, fails: Option<nat>) returns (created: bool)
      modifies this`dirs
      ensures created <==> fails.None? && dir !in old(dirs)
      ensures dirs == if dir in old(dirs) then old(dirs) else old(dirs) + Made(dir, fails)
      ensures Creates(old(dirs), dir, fails, dirs)
    {
      CreationMeans(dirs, dir, fails);
      created := false;
      if dir !in dirs {
        var end := if fails.None? then |dir| + 1 else if fails.value < |dir| then fails.value + 1 else |dir|;
        for n := 0 to end
          invariant dirs == old(dirs) + (set k | 0 <= k < n :: dir[..k])
        {
          dirs := dirs + {dir[..n]};
        }
        assert Made(dir, fails) == (set k | 0 <= k < end :: dir[..k]);
        created := fails.None?;
      }
    }

    method DeployAdhocStorage(uuid: Uuid, t: AdhocType, nodes: seq<string>, mkdirFails: Option<nat>, execWorks: bool)
      returns (ec: ErrorCode, adhocDir: Option<Path>)
      modifies this
      ensures var (dirs', command, ec', dir') := Deploy(config, old(dirs), uuid, t, nodes, mkdirFails, execWorks);
              && dirs == dirs' && ec == ec' && adhocDir == dir'
              && executed == old(executed) + (match command case Some(c) => [c] case None => [])
      ensures !Serves(config, t) ==>
                TurnedAwayWith(config, ec) && dirs == old(dirs) && executed == old(executed) && adhocDir.None?
      ensures Serves(config, t) ==>
                var dir := config.value[t].workdir + [uuid];
                && adhocDir == Some(dir) && Creates(old(dirs), dir, mkdirFails, dirs)
                && (dir in old(dirs) ==> ec == AdhocDirExists && executed == old(executed))
                && (dir !in old(dirs) && mkdirFails.Some? ==> ec == AdhocDirCreateFailed && executed == old(executed))
                && (dir !in old(dirs) && mkdirFails.None? ==>
                      && ec == (if execWorks then Success else SubprocessError)
                      && OneMore(old(executed), executed)
                      && FilledIn(executed[|executed| - 1], config.value[t].startup, uuid, dir, nodes))
    {
      DeployMeans(config, dirs, uuid, t, nodes, mkdirFails, execWorks);
      hide Creates, FilledIn, Ancestors, CommandTemplates.Expand, DeployBindings, BindsDeployment, PathText;
      adhocDir, ec := None, Success;
      if config.None? || config.value == map[] {
        ec := Snafu;
      } else if t in config.value {
        var cfg := config.value[t];
        var dir := AdhocDir(cfg, uuid);
        adhocDir := Some(dir);
        if dir in dirs {
          return AdhocDirExists, adhocDir;
        }
        var created := CreateDirectories(dir, mkdirFails);
        if !created {
          return AdhocDirCreateFailed, adhocDir;
        }
        var template := new Command(cfg.startup);
        var cmd := template.Eval(uuid, PathText(dir), nodes);
        ec := Exec(cmd, execWorks);
      } else {
        ec := AdhocTypeUnsupported;
      }
    }

    /** expand_adhoc_storage and shrink_adhoc_storage. */
    method ResizeAdhocStorage(r: Request, uuid: Uuid, t: AdhocType, nodes: seq<string>, execWorks: bool) returns (ec: ErrorCode)
      modifies this`executed
      ensures !Serves(config, t) ==> TurnedAwayWith(config, ec) && executed == old(executed)
      ensures Serves(config, t) ==>
                && ec == (if execWorks then Success else SubprocessError)
                && OneMore(old(executed), executed)
                && FilledInToResize(executed[|executed| - 1],
                                    if r.ToExpand? then config.value[t].expand else config.value[t].shrink, uuid, nodes)
    {
      ec := Success;
      if config.None? || config.value == map[] {
        ec := Snafu;
      } else if t in config.value {
        var cfg := config.value[t];
        var template := new Command(match r case ToExpand => cfg.expand case ToShrink => cfg.shrink);
        var cmd := template.EvalResize(uuid, nodes);
        ec := Exec(cmd, execWorks);
      } else {
        ec := AdhocTypeUnsupported;
      }
    }

    /** The shutdown command gets the directory and no nodes; the directory is left in place. */
    method TerminateAdhocStorage(uuid: Uuid, t: AdhocType, execWorks: bool) returns (ec: ErrorCode)
      modifies this`executed
      ensures !Serves(config, t) ==> TurnedAwayWith(config, ec) && executed == old(executed)
      ensures Serves(config, t) ==>
                && ec == (if execWorks then Success else SubprocessError)
                && OneMore(old(executed), executed)
                && FilledIn(executed[|executed| - 1], config.value[t].shutdown, uuid, config.value[t].workdir + [uuid], [])
    {
      ec := Success;
      if config.None? || config.value == map[] {
        ec := Snafu;
      } else if t in config.value {
        var cfg := config.value[t];
        var template := new Command(cfg.shutdown);
        var cmd := template.Eval(uuid, PathText(AdhocDir(cfg, uuid)), []);
        ec := Exec(cmd, execWorks);
      } else {
        ec := AdhocTypeUnsupported;
      }
    }
  }
}
