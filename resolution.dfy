/**
 * Resolution through the PnP resolver, as values. The resolver, the test
 * for a resolved value and the serialisation of a result belong to the
 * `tsc-pnp` package and are not visible, so they are fields of `Resolver`.
 */
module Resolution {
  import opened Wrappers
  import Messages

  /**
   * `resolve(pnpPath, name, containingFile, fallback)` is `tsc-pnp`'s
   * `resolveModuleName`; `resolved(r)` is the truthiness of
   * `getResolvedValue(r)`; `show(r)` is `JSON.stringify(r)`.
   */
  datatype Resolver<!T> = Resolver(
    resolve: (Option<string>, string, string, (string, string) -> T) -> T,
    resolved: T -> bool,
    show: T -> string)

  /** The report that resolving `name` adds to the log: one message when the result has no resolved value, none otherwise. */
  function FailureLog<T>(kind: string, r: Resolver<T>, pnpPath: Option<string>, name: string,
                         containingFile: string, fallback: (string, string) -> T): (messages: seq<string>)
  {
    var result := r.resolve(pnpPath, name, containingFile, fallback);
    if r.resolved(result) then []
    else [Messages.FormatResolutionFailedMessage(kind, pnpPath, containingFile, name, r.show(result))]
  }

  /** The reports a batch adds to the log, name by name in batch order. */
  function BatchFailureLog<T>(kind: string, r: Resolver<T>, pnpPath: Option<string>, names: seq<string>,
                              containingFile: string, fallback: (string, string) -> T): (messages: seq<string>)
  {
    if names == [] then []
    else BatchFailureLog(kind, r, pnpPath, names[..|names| - 1], containingFile, fallback)
         + FailureLog(kind, r, pnpPath, names[|names| - 1], containingFile, fallback)
  }

  /** The positions of a batch whose result has no resolved value. */
  function Unresolved<T>(r: Resolver<T>, pnpPath: Option<string>, names: seq<string>,
                         containingFile: string, fallback: (string, string) -> T): (positions: set<nat>)
  {
    set i: nat | i < |names| && !r.resolved(r.resolve(pnpPath, names[i], containingFile, fallback))
  }

  /** The log of a batch is the log of its first part followed by the log of the rest. */
  lemma {:induction false} BatchFailureLogAppend<T>(kind: string, r: Resolver<T>, pnpPath: Option<string>,
                                                    a: seq<string>, b: seq<string>,
                                                    containingFile: string, fallback: (string, string) -> T)
    ensures BatchFailureLog(kind, r, pnpPath, a + b, containingFile, fallback) ==
      BatchFailureLog(kind, r, pnpPath, a, containingFile, fallback) +
      BatchFailureLog(kind, r, pnpPath, b, containingFile, fallback)
  {
    if b == [] {
      assert a + b == a;
    } else {
      var initB, lastB := b[..|b| - 1], b[|b| - 1];
      assert (a + b)[..|a + b| - 1] == a + initB;
      assert (a + b)[|a + b| - 1] == lastB;
      BatchFailureLogAppend(kind, r, pnpPath, a, initB, containingFile, fallback);
    }
  }

  /** A batch logs exactly one report per unresolved position, repeated names included. */
  lemma {:induction false} BatchFailureLogCount<T>(kind: string, r: Resolver<T>, pnpPath: Option<string>,
                                                   names: seq<string>,
                                                   containingFile: string, fallback: (string, string) -> T)
    ensures |BatchFailureLog(kind, r, pnpPath, names, containingFile, fallback)| ==
      |Unresolved(r, pnpPath, names, containingFile, fallback)|
  {
    if names == [] {
      assert Unresolved(r, pnpPath, names, containingFile, fallback) == {};
    } else {
      var n := |names| - 1;
      var init := names[..n];
      BatchFailureLogCount(kind, r, pnpPath, init, containingFile, fallback);
      var before := Unresolved(r, pnpPath, init, containingFile, fallback);
      var after := Unresolved(r, pnpPath, names, containingFile, fallback);
      var last := r.resolve(pnpPath, names[n], containingFile, fallback);
      assert forall i: nat :: i < n ==> init[i] == names[i];
      if r.resolved(last) {
        assert after == before;
      } else {
        assert after == before + {n};
        assert n !in before;
      }
    }
  }
}
