/**
 * `ProjectHandler`: the per-project session. It keeps the `.pnp.js`
 * candidate table and the active path, answers the project's two batch
 * resolvers, and reacts to watch events on the candidates.
 */
module Handler {
  import opened Wrappers
  import opened Host
  import Messages
  import Selection
  import Resolution

  const ReloadingMessage: string := "reloading config to resolve extended references"
  const RefreshingMessage: string := "refreshing project files"
  const ModuleKind: string := "resolveModuleNames"
  const TypeDirectiveKind: string := "resolveTypeReferenceDirectives"

  /**
   * The host calls of `setPnpProject(next)` when the active path was
   * `prev`: a truthy path evicts the module cache and logs "updated",
   * naming the path only when it changed; any other value logs "removed".
   */
  function SetPnpCalls(projectName: string, prev: Option<string>, next: Option<string>): (calls: seq<HostCall>)
  {
    if next.Some? && next.value != "" then
      [InvalidateModule(next.value),
       HostCall.Log(Messages.ProjectLine(projectName,
         "updated PnP API" + (if prev != next then " to '" + next.value + "'" else "")))]
    else
      [HostCall.Log(Messages.ProjectLine(projectName, "removed PnP API"))]
  }

  /** One watch registration per candidate path, in order. */
  function Watches(paths: seq<string>): (calls: seq<HostCall>)
  {
    seq(|paths|, i requires 0 <= i < |paths| => WatchFile(paths[i]))
  }

  /** The given messages, each written through the handler's log. */
  function Logged(projectName: string, messages: seq<string>): (calls: seq<HostCall>)
  {
    seq(|messages|, i requires 0 <= i < |messages| => HostCall.Log(Messages.ProjectLine(projectName, messages[i])))
  }

  lemma LoggedAppend(projectName: string, a: seq<string>, b: seq<string>)
    ensures Logged(projectName, a + b) == Logged(projectName, a) + Logged(projectName, b)
  {
  }

  class ProjectHandler {
    const project: Project
    /** The keys of the `pnpProjects` map, in its iteration order. */
    var keys: seq<string>
    /** The values of the `pnpProjects` map: does the file exist. */
    var flags: map<string, bool>
    var pnpPath: Option<string>

    ghost predicate TableValid()
      reads this
    {
      Selection.Distinct(keys) && flags.Keys == set k | k in keys
    }

    /** Between callbacks the active path is the first existing candidate. */
    ghost predicate Valid()
      reads this
    {
      TableValid() && pnpPath == Selection.FirstPresent(keys, flags)
    }

    /**
     * Installs the resolvers, fills and watches the candidate table, picks
     * the active path and asks the host to reload the project's config, in
     * that order. `candidatePaths` is `walkUp(cwd)` joined with `.pnp.js`.
     */
    constructor (project: Project, candidatePaths: seq<string>, fileExists: string -> bool)
      modifies project
      ensures this.project == project && Valid()
      ensures keys == Selection.InsertionOrder(candidatePaths)
      ensures forall k :: k in flags <==> k in candidatePaths
      ensures forall k :: k in flags ==> flags[k] == fileExists(k)
      ensures project.calls == old(project.calls) + [InstallResolvers] + Watches(candidatePaths)
        + SetPnpCalls(project.name, None, pnpPath)
        + [HostCall.Log(Messages.ProjectLine(project.name, ReloadingMessage)), ReloadOptions]
    {
      this.project := project;
      keys, flags, pnpPath := [], map[], None;
      new;
      Patch();
      Watch(candidatePaths, fileExists);
      Log(ReloadingMessage);
      this.project.calls := this.project.calls + [ReloadOptions];
    }

    method Log(message: string)
      modifies project
      ensures project.calls == old(project.calls) + [HostCall.Log(Messages.ProjectLine(project.name, message))]
    {
      project.calls := project.calls + [HostCall.Log(Messages.ProjectLine(project.name, message))];
    }

    /** Replaces the project's two batch resolvers by ResolveModuleNames and ResolveTypeReferenceDirectives. */
    method Patch()
      modifies project
      ensures project.calls == old(project.calls) + [InstallResolvers]
    {
      project.calls := project.calls + [InstallResolvers];
    }

    /** Records one existence flag per candidate and registers its watch, then picks the active path. */
    method Watch(candidatePaths: seq<string>, fileExists: string -> bool)
      requires keys == [] && flags == map[]
      modifies this`keys, this`flags, this`pnpPath, project
      ensures Valid()
      ensures keys == Selection.InsertionOrder(candidatePaths)
      ensures forall k :: k in flags <==> k in candidatePaths
      ensures forall k :: k in flags ==> flags[k] == fileExists(k)
      ensures project.calls == old(project.calls) + Watches(candidatePaths)
        + SetPnpCalls(project.name, old(pnpPath), pnpPath)
    {
      var i := 0;
      while i < |candidatePaths|
        invariant 0 <= i <= |candidatePaths|
        invariant keys == Selection.InsertionOrder(candidatePaths[..i])
        invariant forall k :: k in flags <==> k in candidatePaths[..i]
        invariant forall k :: k in flags ==> flags[k] == fileExists(k)
        invariant pnpPath == old(pnpPath)
        invariant project.calls == old(project.calls) + Watches(candidatePaths[..i])
      {
        var path := candidatePaths[i];
        assert candidatePaths[..i + 1] == candidatePaths[..i] + [path];
        Selection.InsertionOrderKeys(candidatePaths[..i]);
        if path !in keys {
          keys := keys + [path];
        }
        flags := flags[path := fileExists(path)];
        project.calls := project.calls + [WatchFile(path)];
        i := i + 1;
      }
      assert candidatePaths[..i] == candidatePaths;
      Selection.InsertionOrderKeys(candidatePaths);
      InferPnpProject();
    }

    /** Makes the first candidate recorded as existing the active path, or none. */
    method InferPnpProject()
      requires TableValid()
      modifies this`pnpPath, project
      ensures Valid()
      ensures project.calls == old(project.calls) + SetPnpCalls(project.name, old(pnpPath), pnpPath)
    {
      var i := 0;
      while i < |keys|
        invariant 0 <= i <= |keys|
        invariant forall j :: 0 <= j < i ==> !Selection.Present(flags, keys[j])
        invariant pnpPath == old(pnpPath) && project.calls == old(project.calls)
      {
        var directory := keys[i];
        if flags[directory] {
          Selection.FirstPresentAt(keys, flags, i);
          SetPnpProject(Some(directory));
          return;
        }
        i := i + 1;
      }
      Selection.FirstPresentIsFirst(keys, flags);
      SetPnpProject(None);
    }

    method SetPnpProject(next: Option<string>)
      modifies this`pnpPath, project
      ensures pnpPath == next
      ensures project.calls == old(project.calls) + SetPnpCalls(project.name, old(pnpPath), next)
    {
      if next.Some? && next.value != "" {
        project.calls := project.calls + [InvalidateModule(next.value)];
        Log("updated PnP API" + (if pnpPath != next then " to '" + next.value + "'" else ""));
      } else {
        Log("removed PnP API");
      }
      pnpPath := next;
    }

    /**
     * The watch callback of candidate `path`: only that flag changes, to
     * false for a deletion and true otherwise; then the active path is
     * recomputed, and only after that the project is refreshed.
     */
    method OnWatchEvent(path: string, kind: EventKind)
      requires Valid() && path in keys
      modifies this`flags, this`pnpPath, project
      ensures Valid()
      ensures flags == old(flags)[path := kind != Deleted]
      ensures forall k :: 0 <= k < |keys| && keys[k] == path ==>
        pnpPath == if Selection.FirstPresent(keys[..k], old(flags)).Some? then Selection.FirstPresent(keys[..k], old(flags))
                   else if kind != Deleted then Some(path)
                   else Selection.FirstPresent(keys[k + 1..], old(flags))
      ensures project.calls == old(project.calls) + SetPnpCalls(project.name, old(pnpPath), pnpPath)
        + [HostCall.Log(Messages.ProjectLine(project.name, RefreshingMessage)), RefreshFiles]
    {
      ghost var before := flags;
      flags := flags[path := kind != Deleted];
      InferPnpProject();
      Log(RefreshingMessage);
      project.calls := project.calls + [RefreshFiles];
      forall k | 0 <= k < |keys| && keys[k] == path
        ensures pnpPath == if Selection.FirstPresent(keys[..k], before).Some? then Selection.FirstPresent(keys[..k], before)
                           else if kind != Deleted then Some(path)
                           else Selection.FirstPresent(keys[k + 1..], before)
      {
        Selection.AfterFlagChange(keys, before, k, kind != Deleted);
      }
    }

    /**
     * `resolveAndLog`: the PnP resolver's result, unchanged, for the
     * current active path, with one failure report logged exactly when the
     * result has no resolved value. `parent` is the host resolver with the
     * project's compiler options and resolution host bound.
     */
    method ResolveAndLog<T>(kind: string, name: string, containingFile: string, r: Resolution.Resolver<T>,
                            parent: (string, string) -> T) returns (result: T)
      modifies project
      ensures result == r.resolve(pnpPath, name, containingFile, parent)
      ensures project.calls == old(project.calls)
        + Logged(project.name, Resolution.FailureLog(kind, r, pnpPath, name, containingFile, parent))
    {
      result := r.resolve(pnpPath, name, containingFile, parent);
      if !r.resolved(result) {
        Log(Messages.FormatResolutionFailedMessage(kind, pnpPath, containingFile, name, r.show(result)));
      }
    }

    /** Resolves each name on its own, in order, and keeps the `select`ed part of each result. */
    method ResolveBatch<T, U>(kind: string, names: seq<string>, containingFile: string, r: Resolution.Resolver<T>,
                              parent: (string, string) -> T, select: T -> U) returns (results: seq<U>)
      modifies project
      ensures |results| == |names|
      ensures forall i :: 0 <= i < |names| ==>
        results[i] == select(r.resolve(pnpPath, names[i], containingFile, parent))
      ensures project.calls == old(project.calls)
        + Logged(project.name, Resolution.BatchFailureLog(kind, r, pnpPath, names, containingFile, parent))
    {
      results := [];
      var i := 0;
      while i < |names|
        invariant 0 <= i <= |names|
        invariant |results| == i
        invariant forall j :: 0 <= j < i ==> results[j] == select(r.resolve(pnpPath, names[j], containingFile, parent))
        invariant project.calls == old(project.calls)
          + Logged(project.name, Resolution.BatchFailureLog(kind, r, pnpPath, names[..i], containingFile, parent))
      {
        var result := ResolveAndLog(kind, names[i], containingFile, r, parent);
        assert names[..i + 1][..i] == names[..i];
        LoggedAppend(project.name,
          Resolution.BatchFailureLog(kind, r, pnpPath, names[..i], containingFile, parent),
          Resolution.FailureLog(kind, r, pnpPath, names[i], containingFile, parent));
        results := results + [select(result)];
        i := i + 1;
      }
      assert names[..i] == names;
    }

    /** The project's `resolveModuleNames`: `select` is the `resolvedModule` projection. */
    method ResolveModuleNames<T, U>(moduleNames: seq<string>, containingFile: string, r: Resolution.Resolver<T>,
                                    parent: (string, string) -> T, select: T -> U) returns (results: seq<U>)
      modifies project
      ensures |results| == |moduleNames|
      ensures forall i :: 0 <= i < |moduleNames| ==>
        results[i] == select(r.resolve(pnpPath, moduleNames[i], containingFile, parent))
      ensures project.calls == old(project.calls)
        + Logged(project.name, Resolution.BatchFailureLog(ModuleKind, r, pnpPath, moduleNames, containingFile, parent))
    {
      results := ResolveBatch(ModuleKind, moduleNames, containingFile, r, parent, select);
    }

    /** The project's `resolveTypeReferenceDirectives`: `select` is the `resolvedTypeReferenceDirective` projection. */
    method ResolveTypeReferenceDirectives<T, U>(typeDirectiveNames: seq<string>, containingFile: string,
                                                r: Resolution.Resolver<T>, parent: (string, string) -> T,
                                                select: T -> U) returns (results: seq<U>)
      modifies project
      ensures |results| == |typeDirectiveNames|
      ensures forall i :: 0 <= i < |typeDirectiveNames| ==>
        results[i] == select(r.resolve(pnpPath, typeDirectiveNames[i], containingFile, parent))
      ensures project.calls == old(project.calls)
        + Logged(project.name,
            Resolution.BatchFailureLog(TypeDirectiveKind, r, pnpPath, typeDirectiveNames, containingFile, parent))
    {
      results := ResolveBatch(TypeDirectiveKind, typeDirectiveNames, containingFile, r, parent, select);
    }
  }
}
