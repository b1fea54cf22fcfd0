/**
 * `Plugin`: the process-wide registry of project handlers, and the
 * wrapper it installs once around `ts.nodeModuleNameResolver` so that
 * config-file lookups also go through an active PnP map.
 */
module Registry {
  import opened Wrappers
  import opened Host
  import Messages
  import Selection
  import Resolution
  import Handler

  const ConfigFileKind: string := "config file"

  /** `if (pnpPath)`: a defined, non-empty path. */
  predicate Truthy(pnpPath: Option<string>)
  {
    pnpPath.Some? && pnpPath.value != ""
  }

  /** The active paths of the handlers, in registration order. */
  function PnpPaths(handlers: seq<Handler.ProjectHandler>): (paths: seq<Option<string>>)
    reads handlers
  {
    seq(|handlers|, i reads handlers requires 0 <= i < |handlers| => handlers[i].pnpPath)
  }

  /** `[...].filter(({ pnpPath }) => pnpPath)`, keeping the paths. */
  function TruthyPaths(paths: seq<Option<string>>): (truthy: seq<string>)
  {
    if paths == [] then []
    else if Truthy(paths[0]) then [paths[0].value] + TruthyPaths(paths[1..])
    else TruthyPaths(paths[1..])
  }

  /** The first truthy path, by position. */
  function FirstTruthy(paths: seq<Option<string>>): (first: Option<string>)
  {
    if paths == [] then None
    else if Truthy(paths[0]) then paths[0]
    else FirstTruthy(paths[1..])
  }

  /** Taking the head of the filtered list is taking the first truthy path. */
  lemma {:induction false} FilterHeadIsFirstTruthy(paths: seq<Option<string>>)
    ensures |TruthyPaths(paths)| > 0 <==> FirstTruthy(paths).Some?
    ensures |TruthyPaths(paths)| > 0 ==> FirstTruthy(paths) == Some(TruthyPaths(paths)[0])
  {
    if paths != [] {
      FilterHeadIsFirstTruthy(paths[1..]);
    }
  }

  /**
   * The first truthy path is truthy and no path before it is; it is
   * absent exactly when no path is truthy.
   */
  lemma {:induction false} FirstTruthyIsFirst(paths: seq<Option<string>>)
    ensures FirstTruthy(paths).None? <==> forall i :: 0 <= i < |paths| ==> !Truthy(paths[i])
    ensures FirstTruthy(paths).Some? ==>
      exists i :: 0 <= i < |paths| && paths[i] == FirstTruthy(paths) && Truthy(paths[i]) &&
        forall j :: 0 <= j < i ==> !Truthy(paths[j])
  {
    if paths != [] {
      FirstTruthyIsFirst(paths[1..]);
      if !Truthy(paths[0]) && FirstTruthy(paths[1..]).Some? {
        var i :| 0 <= i < |paths[1..]| && paths[1..][i] == FirstTruthy(paths[1..]) && Truthy(paths[1..][i]) &&
          forall j :: 0 <= j < i ==> !Truthy(paths[1..][j]);
        assert paths[i + 1] == paths[1..][i];
        forall j | 0 <= j < i + 1 ensures !Truthy(paths[j]) {
          if j > 0 { assert paths[j] == paths[1..][j - 1]; }
        }
      }
      if FirstTruthy(paths).None? {
        forall i | 0 <= i < |paths| ensures !Truthy(paths[i]) {
          if i > 0 { assert paths[i] == paths[1..][i - 1]; }
        }
      }
    }
  }

  /** The reports written through the plugin's log. */
  function PluginLogged(messages: seq<string>): (calls: seq<HostCall>)
  {
    seq(|messages|, i requires 0 <= i < |messages| => HostCall.Log(Messages.PluginLine(messages[i])))
  }

  class Plugin {
    /** The keys of the `projects` map, in registration order. */
    var projects: seq<Project>
    /** Its values: `handlers[i]` serves `projects[i]`. */
    var handlers: seq<Handler.ProjectHandler>
    /** How many times `patchConfigFileResolver` has run. */
    var wrapperInstalls: nat

    /** The wrapper is installed once exactly when some project is registered. */
    ghost predicate Valid()
      reads this, handlers
    {
      |projects| == |handlers| &&
      (forall i :: 0 <= i < |handlers| ==> handlers[i].project == projects[i] && handlers[i].Valid()) &&
      (forall i, j :: 0 <= i < j < |projects| ==> projects[i] != projects[j]) &&
      wrapperInstalls == (if |projects| == 0 then 0 else 1)
    }

    constructor ()
      ensures Valid() && projects == [] && handlers == []
    {
      projects, handlers, wrapperInstalls := [], [], 0;
    }

    /**
     * Registers `project`: installs the config-file wrapper when the
     * registry is empty, and creates a handler only for a project not yet
     * registered.
     */
    method UseProject(project: Project, candidatePaths: seq<string>, fileExists: string -> bool)
      requires Valid()
      modifies this, project
      ensures Valid()
      ensures wrapperInstalls == old(wrapperInstalls) + (if old(|projects|) == 0 then 1 else 0)
      ensures project in old(projects) ==>
        projects == old(projects) && handlers == old(handlers) && project.calls == old(project.calls)
      ensures project !in old(projects) ==>
        projects == old(projects) + [project] &&
        |handlers| == |projects| && handlers[..|handlers| - 1] == old(handlers) &&
        fresh(handlers[|handlers| - 1]) &&
        handlers[|handlers| - 1].keys == Selection.InsertionOrder(candidatePaths)
      ensures project !in old(projects) ==>
        var h := handlers[|handlers| - 1];
        (forall k :: k in h.flags <==> k in candidatePaths) &&
        (forall k :: k in h.flags ==> h.flags[k] == fileExists(k)) &&
        project.calls == old(project.calls) + [InstallResolvers] + Handler.Watches(candidatePaths)
          + Handler.SetPnpCalls(project.name, None, h.pnpPath)
          + [HostCall.Log(Messages.ProjectLine(project.name, Handler.ReloadingMessage)), ReloadOptions]
    {
      if |projects| == 0 {
        wrapperInstalls := wrapperInstalls + 1;
      }
      if project !in projects {
        var h := new Handler.ProjectHandler(project, candidatePaths, fileExists);
        projects := projects + [project];
        handlers := handlers + [h];
        assert handlers[..|handlers| - 1] == old(handlers);
      }
    }

    /** `Plugin.log`: written to the first registered project only, if any. */
    method Log(message: string)
      modifies if |projects| > 0 then {projects[0]} else {}
      ensures |projects| > 0 ==> projects[0].calls == old(projects[0].calls) + [HostCall.Log(Messages.PluginLine(message))]
    {
      if |projects| > 0 {
        projects[0].calls := projects[0].calls + [HostCall.Log(Messages.PluginLine(message))];
      }
    }

    /**
     * `ts.nodeModuleNameResolver` as the host sees it. Once the wrapper is
     * installed, a lookup whose trailing argument is `true` goes through the
     * PnP resolver with the first truthy active path in registration order,
     * when there is one; every other call is the original resolver's.
     */
    method NodeModuleNameResolver<T>(name: string, containingFile: string, lookupConfig: bool,
                                     r: Resolution.Resolver<T>, original: (string, string) -> T)
      returns (result: T)
      requires Valid()
      modifies if |projects| > 0 then {projects[0]} else {}
      ensures var active := FirstTruthy(PnpPaths(handlers));
        if wrapperInstalls > 0 && lookupConfig && active.Some? then
          result == r.resolve(active, name, containingFile, original) &&
          |projects| > 0 &&
          projects[0].calls == old(projects[0].calls)
            + PluginLogged(Resolution.FailureLog(ConfigFileKind, r, active, name, containingFile, original))
        else
          result == original(name, containingFile) &&
          (|projects| > 0 ==> projects[0].calls == old(projects[0].calls))
    {
      if wrapperInstalls > 0 && lookupConfig {
        var projectsWithPnp := TruthyPaths(PnpPaths(handlers));
        FilterHeadIsFirstTruthy(PnpPaths(handlers));
        if |projectsWithPnp| > 0 {
          var pnpPath := projectsWithPnp[0];
          result := r.resolve(Some(pnpPath), name, containingFile, original);
          if !r.resolved(result) {
            Log(Messages.FormatResolutionFailedMessage(ConfigFileKind, Some(pnpPath), containingFile, name,
                                                        r.show(result)));
          }
          return;
        }
      }
      result := original(name, containingFile);
    }
  }
}
