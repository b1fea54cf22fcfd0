/**
 * The candidate table of a project handler, as values: the `.pnp.js`
 * paths in the order the JavaScript `Map` keeps them, an existence flag
 * per path, and the rule that picks the active path.
 */
module Selection {
  import opened Wrappers

  predicate Distinct(s: seq<string>)
  {
    forall i, j :: 0 <= i < j < |s| ==> s[i] != s[j]
  }

  /** The table records `k` as existing. */
  predicate Present(flags: map<string, bool>, k: string)
  {
    k in flags && flags[k]
  }

  /**
   * The key order of a `Map` filled by `set` over `paths`: a new key goes
   * to the end, setting a key that is already there keeps its place.
   */
  function InsertionOrder(paths: seq<string>): (order: seq<string>)
  {
    if paths == [] then []
    else
      var order := InsertionOrder(paths[..|paths| - 1]);
      if paths[|paths| - 1] in order then order else order + [paths[|paths| - 1]]
  }

  /** The first candidate, in table order, that is recorded as existing. */
  function FirstPresent(keys: seq<string>, flags: map<string, bool>): (active: Option<string>)
  {
    if keys == [] then None
    else if Present(flags, keys[0]) then Some(keys[0])
    else FirstPresent(keys[1..], flags)
  }

  /** The table holds each path once, and exactly the paths that were set. */
  lemma {:induction false} InsertionOrderKeys(paths: seq<string>)
    ensures Distinct(InsertionOrder(paths))
    ensures forall x :: x in InsertionOrder(paths) <==> x in paths
  {
    if paths != [] {
      var init, last := paths[..|paths| - 1], paths[|paths| - 1];
      assert paths == init + [last];
      InsertionOrderKeys(init);
    }
  }

  /** When every path is set once, the table order is the order of the paths. */
  lemma {:induction false} InsertionOrderOfDistinct(paths: seq<string>)
    requires Distinct(paths)
    ensures InsertionOrder(paths) == paths
  {
    if paths != [] {
      var init, last := paths[..|paths| - 1], paths[|paths| - 1];
      assert paths == init + [last];
      assert Distinct(init);
      InsertionOrderOfDistinct(init);
      assert last !in init;
    }
  }

  /**
   * The active path is a candidate recorded as existing with none before
   * it recorded as existing; it is absent exactly when none exists.
   */
  lemma {:induction false} FirstPresentIsFirst(keys: seq<string>, flags: map<string, bool>)
    ensures FirstPresent(keys, flags).None? <==> forall i :: 0 <= i < |keys| ==> !Present(flags, keys[i])
    ensures FirstPresent(keys, flags).Some? ==>
      exists i :: 0 <= i < |keys| && keys[i] == FirstPresent(keys, flags).value && Present(flags, keys[i]) &&
        forall j :: 0 <= j < i ==> !Present(flags, keys[j])
  {
    if keys != [] {
      FirstPresentIsFirst(keys[1..], flags);
      if !Present(flags, keys[0]) && FirstPresent(keys[1..], flags).Some? {
        var i :| 0 <= i < |keys[1..]| && keys[1..][i] == FirstPresent(keys[1..], flags).value &&
          Present(flags, keys[1..][i]) && forall j :: 0 <= j < i ==> !Present(flags, keys[1..][j]);
        assert keys[i + 1] == keys[1..][i];
        assert forall j :: 0 <= j < i + 1 ==> !Present(flags, keys[j]) by {
          forall j | 0 <= j < i + 1 ensures !Present(flags, keys[j]) {
            if j > 0 { assert keys[j] == keys[1..][j - 1]; }
          }
        }
      }
      if FirstPresent(keys, flags).None? {
        forall i | 0 <= i < |keys| ensures !Present(flags, keys[i]) {
          if i > 0 { assert keys[i] == keys[1..][i - 1]; }
        }
      }
    }
  }

  /** Conversely, the first candidate recorded as existing is the active path. */
  lemma {:induction false} FirstPresentAt(keys: seq<string>, flags: map<string, bool>, i: nat)
    requires i < |keys| && Present(flags, keys[i])
    requires forall j :: 0 <= j < i ==> !Present(flags, keys[j])
    ensures FirstPresent(keys, flags) == Some(keys[i])
  {
    if i > 0 {
      assert !Present(flags, keys[0]);
      assert forall j :: 0 <= j < i - 1 ==> !Present(flags, keys[1..][j]) by {
        forall j | 0 <= j < i - 1 ensures !Present(flags, keys[1..][j]) {
          assert keys[1..][j] == keys[j + 1];
        }
      }
      FirstPresentAt(keys[1..], flags, i - 1);
    }
  }

  /** Nearer candidates decide first: a later part counts only when the earlier part has no existing candidate. */
  lemma {:induction false} FirstPresentAppend(a: seq<string>, b: seq<string>, flags: map<string, bool>)
    ensures FirstPresent(a + b, flags) ==
      if FirstPresent(a, flags).Some? then FirstPresent(a, flags) else FirstPresent(b, flags)
  {
    if a == [] {
      assert a + b == b;
    } else {
      assert (a + b)[0] == a[0];
      assert (a + b)[1..] == a[1..] + b;
      FirstPresentAppend(a[1..], b, flags);
    }
  }

  /** The flag of a path that is not a candidate does not affect the active path. */
  lemma {:induction false} FirstPresentFrame(keys: seq<string>, flags: map<string, bool>, x: string, v: bool)
    requires x !in keys
    ensures FirstPresent(keys, flags[x := v]) == FirstPresent(keys, flags)
  {
    if keys != [] {
      assert keys[0] != x;
      assert x !in keys[1..];
      FirstPresentFrame(keys[1..], flags, x, v);
    }
  }

  /**
   * The active path after the flag of candidate `k` becomes `present`: a
   * nearer existing candidate keeps its place; otherwise `k` itself when it
   * now exists, else the first existing candidate beyond it.
   */
  lemma AfterFlagChange(keys: seq<string>, flags: map<string, bool>, k: nat, present: bool)
    requires Distinct(keys) && k < |keys|
    ensures FirstPresent(keys, flags[keys[k] := present]) ==
      if FirstPresent(keys[..k], flags).Some? then FirstPresent(keys[..k], flags)
      else if present then Some(keys[k])
      else FirstPresent(keys[k + 1..], flags)
  {
    var x := keys[k];
    var updated := flags[x := present];
    assert keys == keys[..k] + ([x] + keys[k + 1..]);
    assert x !in keys[..k] by {
      forall j | 0 <= j < k ensures keys[..k][j] != x { assert keys[..k][j] == keys[j]; }
    }
    var rest := keys[k + 1..];
    assert x !in rest by {
      forall j | 0 <= j < |rest| ensures rest[j] != x { assert rest[j] == keys[k + 1 + j]; }
    }
    FirstPresentAppend(keys[..k], [x] + keys[k + 1..], updated);
    FirstPresentFrame(keys[..k], flags, x, present);
    FirstPresentAppend([x], keys[k + 1..], updated);
    FirstPresentFrame(keys[k + 1..], flags, x, present);
  }

  /** A map file appearing where no nearer one exists becomes the active path. */
  lemma CreatedNearerBecomesActive(keys: seq<string>, flags: map<string, bool>, k: nat)
    requires Distinct(keys) && k < |keys|
    requires forall j :: 0 <= j < k ==> !Present(flags, keys[j])
    ensures FirstPresent(keys, flags[keys[k] := true]) == Some(keys[k])
  {
    AfterFlagChange(keys, flags, k, true);
    FirstPresentIsFirst(keys[..k], flags);
  }

  /** Deleting the active map file falls back to the next existing candidate beyond it, or to none. */
  lemma DeletedActiveFallsBack(keys: seq<string>, flags: map<string, bool>, k: nat)
    requires Distinct(keys) && k < |keys|
    requires FirstPresent(keys, flags) == Some(keys[k])
    ensures FirstPresent(keys, flags[keys[k] := false]) == FirstPresent(keys[k + 1..], flags)
  {
    AfterFlagChange(keys, flags, k, false);
    FirstPresentIsFirst(keys, flags);
    var i :| 0 <= i < |keys| && keys[i] == keys[k] && Present(flags, keys[i]) &&
      forall j :: 0 <= j < i ==> !Present(flags, keys[j]);
    assert i == k;
    FirstPresentIsFirst(keys[..k], flags);
  }
}
