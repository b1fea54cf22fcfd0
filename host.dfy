/**
 * The tsserver project as the plugin sees it: a name and the calls the
 * plugin makes on it, in order. The calls that reach internal tsserver
 * APIs are recorded as events, not modelled.
 */
module Host {
  /** `ts.FileWatcherEventKind`. */
  datatype EventKind = Created | Changed | Deleted

  datatype HostCall =
    | Log(line: string)                // project.log(line)
    | InstallResolvers                 // project.resolveModuleNames and resolveTypeReferenceDirectives replaced
    | WatchFile(path: string)          // serverHost.watchFile(path, callback)
    | InvalidateModule(path: string)   // delete require.cache[require.resolve(path)]
    | RefreshFiles                     // type directive names changed, graph update scheduled, script infos reloaded
    | ReloadOptions                    // projectService.onConfigChangedForConfiguredProject(project, Changed)

  class Project {
    const name: string
    var calls: seq<HostCall>

    constructor (name: string)
      ensures this.name == name && calls == []
    {
      this.name := name;
      calls := [];
    }
  }
}
