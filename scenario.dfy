/**
 * Two clients of the handler and the registry: a project under `/repo/pkg`
 * whose only map file is `/repo/.pnp.js`, and repeated registrations.
 */
module Scenario {
  import opened Wrappers
  import opened Host
  import Messages
  import Selection
  import Resolution
  import Handler
  import Registry

  const Candidates: seq<string> := ["/repo/pkg/.pnp.js", "/repo/.pnp.js", "/.pnp.js"]

  /** A handler for `/repo/pkg` where only `/repo/.pnp.js` exists. */
  method NewRepoHandler() returns (h: Handler.ProjectHandler)
    ensures fresh(h) && fresh(h.project) && h.Valid() && h.project.name == "pkg"
    ensures h.keys == Candidates && h.pnpPath == Some("/repo/.pnp.js")
    ensures forall k :: k in h.flags ==> h.flags[k] == (k == "/repo/.pnp.js")
  {
    var project := new Project("pkg");
    h := new Handler.ProjectHandler(project, Candidates, p => p == "/repo/.pnp.js");
    assert Selection.Distinct(Candidates);
    Selection.InsertionOrderOfDistinct(Candidates);
    assert !Selection.Present(h.flags, Candidates[0]) && Selection.Present(h.flags, Candidates[1]);
    Selection.FirstPresentAt(h.keys, h.flags, 1);
  }

  /**
   * A resolver that misses exactly when it is given `/repo/.pnp.js`, so a
   * logged report shows both that the handler passed its active path and
   * that the miss was reported.
   */
  function MissingUnderRepoMap(): (r: Resolution.Resolver<Option<string>>)
    ensures forall pnp, n, f, fb :: !r.resolved(r.resolve(pnp, n, f, fb)) <==> pnp == Some("/repo/.pnp.js")
  {
    Resolution.Resolver(
      (pnp: Option<string>, n: string, f: string, fb: (string, string) -> Option<string>) =>
        if pnp == Some("/repo/.pnp.js") then None else Some("/elsewhere"),
      (r: Option<string>) => r.Some?,
      (r: Option<string>) => "{}")
  }

  /** Resolving `lodash` in the `/repo/pkg` project goes through `/repo/.pnp.js`, and the miss is logged once. */
  method MissIsReported() returns (h: Handler.ProjectHandler, before: seq<HostCall>, line: string)
    ensures h.pnpPath == Some("/repo/.pnp.js")
    ensures h.project.calls == before + [HostCall.Log(Messages.ProjectLine("pkg", line))]
    ensures var lines := Messages.Split(line, '\n');
      |lines| == 5 &&
      lines[1] == "    PnP: " + "/repo/.pnp.js" &&
      lines[2] == "    From: " + "/repo/pkg/src/index.ts" &&
      lines[3] == "    Request: " + "lodash"
  {
    h := NewRepoHandler();
    var r := MissingUnderRepoMap();
    before := h.project.calls;
    var resolved := h.ResolveAndLog(Handler.ModuleKind, "lodash", "/repo/pkg/src/index.ts", r,
                                    (n: string, f: string) => None);
    assert !r.resolved(resolved);
    line := Messages.FormatResolutionFailedMessage(Handler.ModuleKind, h.pnpPath,
                                                     "/repo/pkg/src/index.ts", "lodash", r.show(resolved));
    assert r.show(resolved) == "{}";
    Messages.FailureMessageLines(Handler.ModuleKind, h.pnpPath, "/repo/pkg/src/index.ts", "lodash", "{}");
  }

  /** A map file appearing in the project directory takes over; deleting it falls back to the ancestor's. */
  method NearerMapTakesOver() returns (created: Option<string>, deleted: Option<string>)
    ensures created == Some("/repo/pkg/.pnp.js") && deleted == Some("/repo/.pnp.js")
  {
    var h := NewRepoHandler();
    h.OnWatchEvent("/repo/pkg/.pnp.js", Created);
    assert h.keys[..0] == [];
    created := h.pnpPath;
    h.OnWatchEvent("/repo/pkg/.pnp.js", Deleted);
    assert h.keys[..0] == [] && h.keys[1..] == Candidates[1..];
    assert Selection.FirstPresent(Candidates[1..], h.flags) == Some(Candidates[1]);
    deleted := h.pnpPath;
  }

  /** The config-file wrapper is installed once over repeated and distinct registrations. */
  method InstallOnce() returns (installs: nat)
    ensures installs == 1
  {
    var plugin := new Registry.Plugin();
    var a := new Project("a");
    var b := new Project("b");
    plugin.UseProject(a, ["/a/.pnp.js"], p => false);
    plugin.UseProject(a, ["/a/.pnp.js"], p => false);
    plugin.UseProject(b, ["/b/.pnp.js"], p => true);
    installs := plugin.wrapperInstalls;
  }
}
